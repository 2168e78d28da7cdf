/** The lists of the settings file: how Settings.c writes column fields and meters, and reads them back. */
module SettingsFiles {
  import opened Options
  import opened XUtils

  /** `names` and `modes` are None for the null pointers of a column that was not read. */
  datatype MeterColumn = MeterColumn(names: Option<seq<string>>, modes: Option<seq<int>>, len: nat)

  // ----- what is written, and what a line gives back

  function Printed(values: seq<int>): (r: seq<string>)
    ensures |r| == |values|
  {
    if values == [] then [] else Printed(values[..|values| - 1]) + [Print(values[|values| - 1])]
  }

  /** The fields of a platform: how many numbers it has, which of them have a name, and the names of the
      dynamic columns, which are numbered from there on. */
  datatype Platform = Platform(last: nat, named: set<int>, columns: seq<string>)

  predicate KnownField(f: int, p: Platform) {
    (0 < f < p.last && f in p.named) || p.last <= f < p.last + |p.columns|
  }

  predicate Fields(fields: seq<int>, p: Platform) {
    forall k :: 0 <= k < |fields| ==> KnownField(fields[k], p)
  }

  /** How a field is written: by number, one less for the older format, or by the name of its column. */
  function IdOf(f: int, p: Platform): string
    requires KnownField(f, p)
  {
    if f >= p.last then "Dynamic(" + p.columns[f - p.last] + ")" else Print(f - 1)
  }

  function IdsOf(fields: seq<int>, p: Platform): (r: seq<string>)
    requires Fields(fields, p)
    ensures |r| == |fields| && forall k :: 0 <= k < |fields| ==> r[k] == IdOf(fields[k], p)
  {
    seq(|fields|, k requires 0 <= k < |fields| => IdOf(fields[k], p))
  }

  /** The column fields on their line. */
  function FieldsText(fields: seq<int>, p: Platform): string
    requires Fields(fields, p)
  {
    Join(IdsOf(fields, p), ' ')
  }

  function ModesText(modes: seq<int>): string { Join(Printed(modes), ' ') }

  function Numbers(ids: seq<string>): (r: seq<int>)
    ensures |r| == |ids| && forall k :: 0 <= k < |ids| ==> r[k] == Atoi(ids[k])
  {
    if ids == [] then [] else Numbers(ids[..|ids| - 1]) + [Atoi(ids[|ids| - 1])]
  }

  // ----- dynamic columns

  const DYNAMIC := "Dynamic("

  /** `%30s`: blanks are skipped, then up to `width` other characters are taken. */
  function Taken(s: string, width: nat): string {
    if s == "" || width == 0 then ""
    else if Blank(s[0]) then ""
    else [s[0]] + Taken(s[1..], width - 1)
  }

  function Skipped(s: string): string {
    if s != "" && Blank(s[0]) then Skipped(s[1..]) else s
  }

  /** What scanning an id for "Dynamic(%30s)" leaves in the buffer, unless the id is something else. An id
      that ends too early counts as scanned, with nothing in the buffer. */
  function Scanned(id: string): Option<string> {
    if id <= DYNAMIC then Some("")
    else if DYNAMIC <= id then Some(Taken(Skipped(id[|DYNAMIC|..]), 30))
    else None
  }

  /** `s` before its last closing parenthesis. */
  function BeforeParen(s: string): Option<string> {
    if s == "" then None
    else if s[|s| - 1] == ')' then Some(s[..|s| - 1])
    else BeforeParen(s[..|s| - 1])
  }

  /** `DynamicColumn_search`: the number of the column with a name. */
  function ColumnNamed(columns: seq<string>, name: string): (k: Option<nat>)
    ensures k.Some? ==> k.value < |columns| && columns[k.value] == name
    ensures k.None? ==> name !in columns
  {
    if columns == [] then None
    else if columns[|columns| - 1] == name then Some(|columns| - 1)
    else ColumnNamed(columns[..|columns| - 1], name)
  }

  /** The field that an id stands for, if any. */
  function FieldNamed(id: string, p: Platform): (f: Option<int>)
    ensures f.Some? ==> KnownField(f.value, p)
  {
    match Scanned(id)
    case Some(dynamic) =>
      (match BeforeParen(dynamic)
       case None => None
       case Some(name) =>
         var k := ColumnNamed(p.columns, name);
         if k.Some? then Some(p.last + k.value) else None)
    case None =>
      var f := Atoi(id) + 1;
      if 0 < f < p.last && f in p.named then Some(f) else None
  }

  /** The fields that a list of ids stands for, leaving out what is unknown. */
  function KnownFields(ids: seq<string>, p: Platform): seq<int> {
    if ids == [] then []
    else
      var f := FieldNamed(ids[|ids| - 1], p);
      KnownFields(ids[..|ids| - 1], p) + if f.Some? then [f.value] else []
  }

  ghost predicate NamesUnique(columns: seq<string>) {
    forall i, j :: 0 <= i < j < |columns| ==> columns[i] != columns[j]
  }

  /** The columns among `fields` have names that are words, and no two columns have the same. */
  ghost predicate WordNames(fields: seq<int>, p: Platform)
    requires Fields(fields, p)
  {
    NamesUnique(p.columns) && forall k :: 0 <= k < |fields| && fields[k] >= p.last ==> Word(p.columns[fields[k] - p.last])
  }

  /** The columns among `fields` have names that fit the buffer of the reader. */
  ghost predicate ShortNames(fields: seq<int>, p: Platform)
    requires Fields(fields, p)
  {
    forall k :: 0 <= k < |fields| && fields[k] >= p.last ==> |p.columns[fields[k] - p.last]| <= 29
  }

  /** `line` is how `fields` are written. */
  ghost predicate WrittenAs(fields: seq<int>, p: Platform, line: string) {
    fields != [] && Fields(fields, p) && WordNames(fields, p) && line == FieldsText(fields, p)
  }

  lemma {:induction false} TakenWord(s: string, width: nat)
    requires forall k :: 0 <= k < |s| ==> !Blank(s[k])
    ensures Taken(s, width) == if |s| <= width then s else s[..width]
  {
    if s != "" && width > 0 {
      TakenWord(s[1..], width - 1);
      assert s == [s[0]] + s[1..];
    }
  }

  lemma {:induction false} BeforeShorter(s: string)
    ensures BeforeParen(s).Some? ==> |BeforeParen(s).value| < |s|
  {
    if s != "" && s[|s| - 1] != ')' { BeforeShorter(s[..|s| - 1]); }
  }

  lemma ScannedColumn(name: string)
    requires Word(name)
    ensures var t := name + ")"; Scanned(DYNAMIC + name + ")") == Some(if |t| <= 30 then t else t[..30])
  {
    var t := name + ")";
    var id := DYNAMIC + name + ")";
    assert id == DYNAMIC + t && id[|DYNAMIC|..] == t;
    assert !Blank(t[0]);
    TakenWord(t, 30);
  }

  lemma ParenEnds(name: string)
    ensures BeforeParen(name + ")") == Some(name)
  {
    assert (name + ")")[..|name|] == name;
  }

  lemma ColumnFound(columns: seq<string>, k: nat)
    requires k < |columns| && NamesUnique(columns)
    ensures ColumnNamed(columns, columns[k]) == Some(k)
  {
  }

  /** A dynamic column comes back exactly when its name has at most 29 characters: the buffer of the reader
      leaves no room for more, though a name may be longer. */
  lemma ColumnComesBack(k: nat, p: Platform)
    requires k < |p.columns| && NamesUnique(p.columns) && Word(p.columns[k])
    ensures FieldNamed(IdOf(p.last + k, p), p) == Some(p.last + k) <==> |p.columns[k]| <= 29
  {
    hide Scanned, Word, NamesUnique;
    var name := p.columns[k];
    ScannedColumn(name);
    ColumnFound(p.columns, k);
    if |name| <= 29 {
      ParenEnds(name);
    } else {
      BeforeShorter((name + ")")[..30]);
    }
  }

  ghost predicate Words(parts: seq<string>) {
    forall k :: 0 <= k < |parts| ==> Word(parts[k])
  }

  // ----- round trips

  lemma {:induction false} PrintedWords(values: seq<int>)
    ensures Words(Printed(values))
  {
    if values != [] {
      PrintedWords(values[..|values| - 1]);
      PrintClean(values[|values| - 1]);
    }
  }

  lemma {:induction false} JoinClean(parts: seq<string>)
    requires Words(parts) && parts != []
    ensures var text := Join(parts, ' ');
            text != "" && !Blank(text[0]) && !Blank(text[|text| - 1]) && '=' !in text
  {
    assert Word(parts[0]);
    if |parts| > 1 {
      JoinClean(parts[1..]);
      assert '=' !in parts[0];
    }
  }

  lemma WordSeparable(p: string)
    requires Word(p)
    ensures ' ' !in p && p != ""
  {
  }

  /** Words joined by spaces come back from an option line: the split at '=', the trim and the split at ' '. */
  lemma WordsRoundTrip(name: string, parts: seq<string>, r: string)
    requires Words(parts) && parts != [] && '=' !in name && Trims(Join(parts, ' '), r)
    ensures Split(name + "=" + Join(parts, ' '), '=') == [name, Join(parts, ' ')]
    ensures Split(r, ' ') == parts
  {
    JoinClean(parts);
    OptionLine(name, Join(parts, ' '));
    TrimsClean(Join(parts, ' '), r);
    forall p | p in parts ensures ' ' !in p && p != "" {
      var k :| 0 <= k < |parts| && parts[k] == p;
      WordSeparable(parts[k]);
    }
    SplitJoin(parts, ' ');
    assert parts[|parts| - 1] in parts;
  }

  /** An option is only read when its text is not empty: an empty list is not written so that it reads back. */
  lemma OptionLine(name: string, body: string)
    requires '=' !in name && '=' !in body
    ensures Split(name + "=" + body, '=') == if body == "" then [name] else [name, body]
  {
    var line := [name, body];
    assert line[1..] == [body];
    assert Join(line, '=') == name + "=" + body;
    SplitJoin(line, '=');
    assert line[..1] == [name];
  }

  lemma {:induction false} NumbersRoundTrip(values: seq<int>)
    ensures Numbers(Printed(values)) == values
  {
    hide Atoi, Print;
    if values != [] {
      NumbersRoundTrip(values[..|values| - 1]);
      AtoiPrint(values[|values| - 1]);
    }
  }

  lemma PrintedNotScanned(n: nat)
    ensures Scanned(Print(n)) == None
  {
    var s := Print(n);
    assert Digit(s[0]) && DYNAMIC[0] == 'D';
  }

  lemma KnownNext(ids: seq<string>, i: nat, p: Platform)
    requires i < |ids|
    ensures var f := FieldNamed(ids[i], p);
            KnownFields(ids[..i + 1], p) == KnownFields(ids[..i], p) + if f.Some? then [f.value] else []
  {
    hide FieldNamed;
    assert ids[..i + 1][..i] == ids[..i];
  }

  lemma JoinNothing(parts: seq<string>)
    ensures Join(parts[..0], ' ') == ""
  {
  }

  lemma NumbersNext(ids: seq<string>, i: nat)
    requires i < |ids|
    ensures Numbers(ids[..i + 1]) == Numbers(ids[..i]) + [Atoi(ids[i])]
    ensures Numbers(ids[..0]) == []
  {
    assert ids[..i + 1][..i] == ids[..i];
  }

  lemma NoFields(p: Platform)
    ensures KnownFields([], p) == [] && Fields([], p) && IdsOf([], p) == [] && ShortNames([], p)
  {
  }

  lemma {:induction false} KnownAtMost(ids: seq<string>, p: Platform)
    ensures |KnownFields(ids, p)| <= |ids|
  {
    hide FieldNamed;
    if ids != [] { KnownAtMost(ids[..|ids| - 1], p); }
  }

  /** A static field always comes back, a dynamic one when its name is short enough. */
  lemma FieldComesBack(f: int, p: Platform)
    requires KnownField(f, p) && NamesUnique(p.columns) && (f >= p.last ==> Word(p.columns[f - p.last]))
    ensures FieldNamed(IdOf(f, p), p) == Some(f) <==> (f >= p.last ==> |p.columns[f - p.last]| <= 29)
  {
    hide Scanned, Word;
    if f >= p.last {
      ColumnComesBack(f - p.last, p);
    } else {
      AtoiPrint(f - 1);
      PrintedNotScanned(f - 1);
    }
  }

  /** What is written for a field: a number one less than its own, or the name of its column. */
  lemma FieldIds(f: int, p: Platform)
    requires (0 < f < p.last && f in p.named) || p.last <= f < p.last + |p.columns|
    ensures f < p.last ==> Atoi(IdOf(f, p)) == f - 1
    ensures f >= p.last ==> IdOf(f, p) == "Dynamic(" + p.columns[f - p.last] + ")"
  {
    AtoiPrint(f - 1);
  }

  /** What is read for an id that does not name a column: the field of the next number, if there is one. */
  lemma NumberedField(id: string, p: Platform)
    requires !(id <= "Dynamic(") && !("Dynamic(" <= id)
    ensures var f := Atoi(id) + 1; FieldNamed(id, p) == if 0 < f < p.last && f in p.named then Some(f) else None
  {
  }

  /** And for one that does: the column of that name, as long as the name fits the buffer. */
  lemma ColumnField(name: string, p: Platform)
    requires Word(name) && |name| <= 29
    ensures match FieldNamed("Dynamic(" + name + ")", p)
            case Some(f) => p.last <= f < p.last + |p.columns| && p.columns[f - p.last] == name
            case None => name !in p.columns
  {
    hide Word;
    ScannedColumn(name);
    ParenEnds(name);
  }

  lemma {:induction false} KnownRoundTrip(fields: seq<int>, p: Platform)
    requires Fields(fields, p) && WordNames(fields, p)
    ensures KnownFields(IdsOf(fields, p), p) == fields <==> ShortNames(fields, p)
  {
    hide FieldNamed, Word, IdOf, IdsOf, KnownFields, ShortNames, Fields, WordNames, NamesUnique, KnownField;
    if fields == [] {
      NoFields(p);
    } else {
      var n := |fields| - 1;
      var front, last := fields[..n], fields[n];
      FieldsSplit(fields, p);
      KnownRoundTrip(front, p);
      FieldComesBack(last, p);
      KnownAtMost(IdsOf(front, p), p);
      KnownLast(IdsOf(front, p), IdOf(last, p), p);
      ShortSplits(fields, p);
      OneMoreSame(KnownFields(IdsOf(front, p), p), FieldNamed(IdOf(last, p), p), front, last);
    }
  }

  lemma FieldsSplit(fields: seq<int>, p: Platform)
    requires fields != [] && Fields(fields, p) && WordNames(fields, p)
    ensures var n := |fields| - 1; var front, f := fields[..n], fields[n];
            && fields == front + [f] && Fields(front, p) && WordNames(front, p)
            && KnownField(f, p) && NamesUnique(p.columns) && (f >= p.last ==> Word(p.columns[f - p.last]))
            && IdsOf(fields, p) == IdsOf(front, p) + [IdOf(f, p)]
  {
    hide Word, IdOf, NamesUnique;
  }

  lemma KnownLast(ids: seq<string>, id: string, p: Platform)
    ensures var f := FieldNamed(id, p); KnownFields(ids + [id], p) == KnownFields(ids, p) + if f.Some? then [f.value] else []
  {
    hide FieldNamed;
    assert (ids + [id])[..|ids|] == ids;
  }

  lemma OneMoreSame(a: seq<int>, x: Option<int>, front: seq<int>, last: int)
    requires |a| <= |front|
    ensures a + (if x.Some? then [x.value] else []) == front + [last] <==> a == front && x == Some(last)
  {
    var b := a + if x.Some? then [x.value] else [];
    if b == front + [last] {
      assert |b| == |front| + 1;
      assert b[..|a|] == a && (front + [last])[..|a|] == front;
    }
  }

  lemma ShortSplits(fields: seq<int>, p: Platform)
    requires fields != [] && Fields(fields, p)
    ensures var n := |fields| - 1; var f := fields[n];
            ShortNames(fields, p) <==> ShortNames(fields[..n], p) && (f >= p.last ==> |p.columns[f - p.last]| <= 29)
  {
  }

  /** A column whose name has 30 characters is written, and lost when it is read. */
  lemma LongNameLost(p: Platform)
    requires p.columns == ["abcdefghijklmnopqrstuvwxyz1234"]
    ensures FieldNamed(IdOf(p.last, p), p) != Some(p.last)
  {
    hide FieldNamed, IdOf;
    assert |p.columns[0]| == 30 && Word(p.columns[0]);
    ColumnComesBack(0, p);
  }

  lemma IdsWords(fields: seq<int>, p: Platform)
    requires Fields(fields, p) && WordNames(fields, p)
    ensures Words(IdsOf(fields, p))
  {
    hide Word, IdOf;
    forall k | 0 <= k < |fields| ensures Word(IdOf(fields[k], p)) {
      IdWord(fields[k], p);
    }
  }

  lemma IdWord(f: int, p: Platform)
    requires KnownField(f, p) && (f >= p.last ==> Word(p.columns[f - p.last]))
    ensures Word(IdOf(f, p))
  {
    if f >= p.last {
      ColumnWord(p.columns[f - p.last]);
    } else {
      PrintClean(f - 1);
    }
  }

  lemma ColumnWord(name: string)
    requires Word(name)
    ensures Word("Dynamic(" + name + ")")
  {
    var s := "Dynamic(" + name + ")";
    forall k | 0 <= k < |s| ensures !Blank(s[k]) && s[k] != '=' {
      if 8 <= k < 8 + |name| { assert s[k] == name[k - 8]; }
    }
  }

  /** Whether reading `ids` stays within the buffer of fields: at the last id there must be room for one more. */
  ghost predicate FitBuffer(ids: seq<string>, p: Platform) {
    ids == [] || |KnownFields(ids[..|ids| - 1], p)| < p.last
  }

  lemma KnownFit(fields: seq<int>, p: Platform)
    requires Fields(fields, p) && WordNames(fields, p) && fields != [] && ShortNames(fields, p)
    ensures FitBuffer(IdsOf(fields, p), p) <==> |fields| <= p.last
  {
    hide FieldNamed, Word, IdOf, KnownFields, WordNames, KnownField;
    var n := |fields| - 1;
    FieldsSplit(fields, p);
    ShortSplits(fields, p);
    KnownRoundTrip(fields[..n], p);
    assert IdsOf(fields, p)[..n] == IdsOf(fields[..n], p);
  }

  /** The column fields survive, exactly if no dynamic column among them has a name of 30 characters or more,
      and there are not more of them than the platform has numbers. */
  lemma FieldsRoundTrip(fields: seq<int>, p: Platform, r: string)
    requires Fields(fields, p) && WordNames(fields, p) && fields != [] && Trims(FieldsText(fields, p), r)
    ensures Split("fields=" + FieldsText(fields, p), '=') == ["fields", FieldsText(fields, p)]
    ensures var ids := Split(r, ' ');
            KnownFields(ids, p) == fields && FitBuffer(ids, p) <==> ShortNames(fields, p) && |fields| <= p.last
  {
    hide KnownFields, FitBuffer, ShortNames, WordNames, Trims, Split;
    IdsWords(fields, p);
    WordsRoundTrip("fields", IdsOf(fields, p), r);
    assert "fields" + "=" == "fields=";
    KnownRoundTrip(fields, p);
    if ShortNames(fields, p) { KnownFit(fields, p); }
  }

  /** The modes of a meter column survive. */
  lemma ModesRoundTrip(modes: seq<int>, r: string)
    requires modes != [] && Trims(ModesText(modes), r)
    ensures Numbers(Split(r, ' ')) == modes
  {
    PrintedWords(modes);
    WordsRoundTrip("", Printed(modes), r);
    NumbersRoundTrip(modes);
  }

  // ----- the settings

  /** A column that `Settings_validateMeters` accepts. */
  ghost predicate Usable(c: MeterColumn) {
    c.names.Some? && c.modes.Some? && |c.names.value| == |c.modes.value| > 0
  }

  class Settings {
    const platform: Platform
    var fields: seq<int>
    var hColumns: seq<MeterColumn>

    ghost predicate Valid()
      reads this
    {
      hColumns != [] && forall c :: c in hColumns ==>
        if c.modes.Some? then c.len == |c.modes.value| > 0 else c.len == 0
    }

    constructor (platform: Platform, columns: nat)
      requires columns > 0
      ensures Valid() && |hColumns| == columns && this.platform == platform && fields == []
    {
      this.platform, fields := platform, [];
      hColumns := seq(columns, i => MeterColumn(None, None, 0));
    }

    function Column(column: nat): nat
      reads this
      requires hColumns != []
    {
      if column < |hColumns| - 1 then column else |hColumns| - 1
    }

    /** False if the buffer of fields is outgrown. */
    method ReadFields(line: string) returns (fits: bool)
      modifies this`fields
      ensures Fields(fields, platform)
      ensures exists r :: Trims(line, r) && var ids := Split(r, ' ');
                fields == KnownFields(ids, platform) && (fits <==> FitBuffer(ids, platform))
      ensures forall written :: WrittenAs(written, platform, line) ==>
                (fits && fields == written <==> ShortNames(written, platform) && |written| <= platform.last)
    {
      hide KnownFields, FieldNamed, Split, FieldsText, Trims, WordNames, ShortNames, KnownField;
      var trim := StringTrim(line);
      var ids := StringSplit(trim, ' ');
      fields, fits := [], true;
      NoFields(platform);
      assert ids[..0] == [];
      ghost var before := 0;
      for i := 0 to |ids|
        invariant fields == KnownFields(ids[..i], platform) && Fields(fields, platform) && before <= |fields|
        invariant i > 0 ==> before == |KnownFields(ids[..i - 1], platform)|
        invariant fits <==> i == 0 || before < platform.last
      {
        KnownNext(ids, i, platform);
        before := |fields|;
        if |fields| >= platform.last {
          fits := false;
        }
        var f := FieldNamed(ids[i], platform);
        if f.Some? {
          fields := fields + [f.value];
        }
      }
      assert ids[..|ids|] == ids;
      forall written | WrittenAs(written, platform, line)
        ensures fits && fields == written <==> ShortNames(written, platform) && |written| <= platform.last
      {
        FieldsRoundTrip(written, platform, trim);
      }
    }

    method ReadMeters(line: string, column: nat)
      requires Valid()
      modifies this`hColumns
      ensures Valid() && |hColumns| == |old(hColumns)|
      // only the named column changes, or the last one when there are fewer
      ensures var c := if column < |hColumns| then column else |hColumns| - 1;
              && hColumns == old(hColumns)[c := old(hColumns)[c].(names := hColumns[c].names)]
              && (exists r :: Trims(line, r) && hColumns[c].names == Some(Split(r, ' ')))
              && (forall names :: names != [] && Words(names) && line == Join(names, ' ') ==> hColumns[c].names == Some(names))
    {
      var trim := StringTrim(line);
      var ids := StringSplit(trim, ' ');
      var c := Column(column);
      var was := hColumns[c];
      hColumns := hColumns[c := was.(names := Some(ids))];
      forall names | names != [] && Words(names) && line == Join(names, ' ') ensures ids == names {
        WordsRoundTrip("", names, trim);
      }
    }

    method ReadMeterModes(line: string, column: nat)
      requires Valid()
      modifies this`hColumns
      ensures Valid() && |hColumns| == |old(hColumns)|
      ensures var c := if column < |hColumns| then column else |hColumns| - 1;
              && hColumns == old(hColumns)[c := hColumns[c].(names := old(hColumns)[c].names)]
              && (exists r :: Trims(line, r) && var modes := Numbers(Split(r, ' '));
                    hColumns[c].modes == (if modes != [] then Some(modes) else None))
              && (forall modes :: modes != [] && line == ModesText(modes) ==> hColumns[c].modes == Some(modes))
    {
      hide Split, Atoi, ModesText, Trims;
      var trim := StringTrim(line);
      var ids := StringSplit(trim, ' ');
      var len := |ids|;
      var modes: seq<int> := [];
      assert Numbers(ids[..0]) == [];
      for i := 0 to len
        invariant modes == Numbers(ids[..i]) && hColumns == old(hColumns)
      {
        NumbersNext(ids, i);
        modes := modes + [Atoi(ids[i])];
      }
      assert ids[..len] == ids;
      var c := Column(column);
      hColumns := hColumns[c := MeterColumn(hColumns[c].names, if len > 0 then Some(modes) else None, len)];
      forall written | written != [] && line == ModesText(written) ensures modes == written {
        ModesRoundTrip(written, trim);
      }
    }

    /** Accepts exactly the columns that have as many names as modes, and at least one. */
    method ValidateMeters() returns (ok: bool)
      requires Valid()
      ensures ok <==> forall c :: c in hColumns ==>
                c.names.Some? && c.modes.Some? && |c.names.value| == |c.modes.value| > 0
    {
      for column := 0 to |hColumns|
        invariant forall k :: 0 <= k < column ==> Usable(hColumns[k])
      {
        var c := hColumns[column];
        assert c in hColumns;
        if c.names.None? || c.modes.None? || c.len == 0 {
          return false;
        }
        var names := c.names.value;
        for meterIdx := 0 to c.len
          invariant meterIdx <= |names|
        {
          if meterIdx == |names| {
            return false;
          }
        }
        if c.len < |names| {
          return false;
        }
      }
      return true;
    }

    method WriteFields(name: string, separator: char) returns (out: string)
      requires Fields(fields, platform)
      ensures out == name + "=" + FieldsText(fields, platform) + [separator]
    {
      hide Join, Print;
      ghost var ids := IdsOf(fields, platform);
      out := name + "=";
      var sep := "";
      assert Join(ids[..0], ' ') == "" by { JoinNothing(ids); }
      for i := 0 to |fields|
        invariant out == name + "=" + Join(ids[..i], ' ') && sep == if i == 0 then "" else " "
      {
        assert ids[..i + 1] == ids[..i] + [ids[i]];
        JoinAppend(ids[..i], ids[i], ' ');
        assert KnownField(fields[i], platform);
        var id;
        if fields[i] >= platform.last {
          id := "Dynamic(" + platform.columns[fields[i] - platform.last] + ")";
        } else {
          id := Print(fields[i] - 1);
        }
        out := out + sep + id;
        sep := " ";
      }
      assert ids[..|fields|] == ids;
      out := out + [separator];
    }

    method WriteMeters(separator: char, column: nat) returns (out: string)
      requires column < |hColumns| && Usable(hColumns[column]) && Valid()
      ensures out == Join(hColumns[column].names.value, ' ') + [separator]
    {
      assert hColumns[column] in hColumns;
      var names := hColumns[column].names.value;
      out := "";
      var sep := "";
      for i := 0 to hColumns[column].len
        invariant out == Join(names[..i], ' ') && sep == if i == 0 then "" else " "
      {
        assert names[..i + 1] == names[..i] + [names[i]];
        JoinAppend(names[..i], names[i], ' ');
        out := out + sep + names[i];
        sep := " ";
      }
      assert names[..|names|] == names;
      out := out + [separator];
    }

    method WriteMeterModes(separator: char, column: nat) returns (out: string)
      requires column < |hColumns| && Usable(hColumns[column]) && Valid()
      ensures out == ModesText(hColumns[column].modes.value) + [separator]
    {
      assert hColumns[column] in hColumns;
      var modes := hColumns[column].modes.value;
      out := "";
      var sep := "";
      for i := 0 to hColumns[column].len
        invariant out == Join(Printed(modes[..i]), ' ') && sep == if i == 0 then "" else " "
      {
        assert modes[..i + 1][..i] == modes[..i];
        JoinAppend(Printed(modes[..i]), Print(modes[i]), ' ');
        out := out + sep + Print(modes[i]);
        sep := " ";
      }
      assert modes[..|modes|] == modes;
      out := out + [separator];
    }
  }
}
