/** Incremental search and filter over a panel of lines (IncSet.c, and the parts of Panel.c and
    ListItem.c it works on). */
module IncSets {
  import opened Options
  import opened Text

  class ListItem {
    var value: string

    constructor (value: string)
      ensures this.value == value
    {
      this.value := value;
    }

    method Append(text: string)
      modifies this
      ensures value == old(value) + text
    {
      value := value + text;
    }
  }

  /** The items of a panel and the selected one. */
  class Panel {
    var items: seq<ListItem>
    var selected: nat

    predicate Valid()
      reads this
    {
      selected < |items| || (items == [] && selected == 0)
    }

    constructor ()
      ensures items == [] && selected == 0
    {
      items, selected := [], 0;
    }

    method Prune()
      modifies this
      ensures items == [] && selected == 0
    {
      items, selected := [], 0;
    }

    method Add(item: ListItem)
      modifies this`items
      ensures items == old(items) + [item]
    {
      items := items + [item];
    }

    method SetSelected(selection: int)
      modifies this`selected
      ensures Valid() && (0 <= selection < |items| ==> selected == selection)
      ensures selection >= |items| > 0 ==> selected == |items| - 1
    {
      var selection := selection;
      if selection >= |items| {
        selection := |items| - 1;
      }
      if selection < 0 {
        selection := 0;
      }
      selected := selection;
    }
  }

  datatype IncType = INC_SEARCH | INC_FILTER

  const INCMODE_MAX := 40

  /** The keys `IncSet_handleKey` tells apart; `Done` stands for every other key. */
  datatype KeyStroke = NoKey | Next | Previous | Print(c: char) | Backspace | Resize | Escape | Done

  predicate Passes(text: string, filter: Option<string>) {
    filter == None || ContainsI(text, filter.value)
  }

  /** The lines that a filter lets through, in order. */
  ghost function View(lines: seq<ListItem>, filter: Option<string>): seq<ListItem>
    reads (set l | l in lines)`value
  {
    if lines == [] then []
    else
      var last := lines[|lines| - 1];
      View(lines[..|lines| - 1], filter) + if Passes(last.value, filter) then [last] else []
  }

  lemma {:induction false} ViewMember(lines: seq<ListItem>, filter: Option<string>)
    ensures forall l :: l in View(lines, filter) <==>
              l in lines && (filter == None || ContainsI(l.value, filter.value))
  {
    if lines != [] {
      ViewMember(lines[..|lines| - 1], filter);
      assert lines == lines[..|lines| - 1] + [lines[|lines| - 1]];
    }
  }

  lemma {:induction false} ViewAll(lines: seq<ListItem>)
    ensures View(lines, None) == lines
  {
    if lines != [] {
      ViewAll(lines[..|lines| - 1]);
      assert lines == lines[..|lines| - 1] + [lines[|lines| - 1]];
    }
  }

  lemma ViewNothing(lines: seq<ListItem>, filter: Option<string>)
    ensures View(lines[..0], filter) == []
  {
  }

  lemma ViewNext(lines: seq<ListItem>, i: nat, filter: Option<string>)
    requires i < |lines|
    ensures View(lines[..i + 1], filter) == View(lines[..i], filter) + if Passes(lines[i].value, filter) then [lines[i]] else []
  {
    assert lines[..i + 1][..i] == lines[..i];
  }

  /** `d` steps from `here`, forward or backward around a panel of `size` items. */
  function Around(here: nat, d: nat, forward: bool, size: nat): int
    requires here < size && d <= size
  {
    if forward then (if here + d < size then here + d else here + d - size)
    else (if here >= d then here - d else here - d + size)
  }

  class IncSet {
    var search: string
    var filter: string
    var active: Option<IncType>
    var filtering: bool
    var found: bool

    predicate Valid()
      reads this
    {
      |search| <= INCMODE_MAX && |filter| <= INCMODE_MAX
    }

    /** `IncSet_filter`. */
    function Filter(): Option<string>
      reads this
    {
      if filtering then Some(filter) else None
    }

    /** The text of the active mode. */
    function Text(): string
      reads this
      requires active.Some?
    {
      if active.value == INC_FILTER then filter else search
    }

    constructor ()
      ensures Valid() && Filter() == None && active == None
    {
      search, filter, active, filtering, found := "", "", None, false, false;
    }

    method SetFilter(text: string)
      requires Valid()
      modifies this`filter, this`filtering
      ensures Valid()
      ensures Filter() == Some(if |text| <= 40 then text else text[..40])
    {
      filter := if |text| <= INCMODE_MAX then text else text[..INCMODE_MAX];
      filtering := true;
    }

    method Activate(type_: IncType)
      modifies this`active
      ensures active == Some(type_)
    {
      active := Some(type_);
    }

    /** Makes the panel the filtered view of `lines`, and keeps the selected item if it still shows. */
    method UpdateWeakPanel(panel: Panel, lines: seq<ListItem>)
      requires panel.Valid()
      modifies panel
      ensures panel.Valid() && panel.items == View(lines, Filter())
      ensures forall l :: l in panel.items <==> l in lines && (!filtering || ContainsI(l.value, filter))
      ensures var was := old(panel.items);
              if was != [] && was[old(panel.selected)] in panel.items
              then panel.selected < |panel.items| && panel.items[panel.selected] == was[old(panel.selected)]
              else panel.selected == 0
    {
      hide View, ContainsI;
      var selected: Option<ListItem> := if |panel.items| > 0 then Some(panel.items[panel.selected]) else None;
      panel.Prune();
      ghost var shown := Filter();
      if filtering {
        var n := 0;
        ViewNothing(lines, shown);
        for i := 0 to |lines|
          invariant panel.items == View(lines[..i], shown) && n == |panel.items| && panel.Valid()
          invariant if selected.Some? && selected.value in panel.items
                    then panel.items[panel.selected] == selected.value else panel.selected == 0
        {
          ViewNext(lines, i, shown);
          var line := lines[i];
          if ContainsI(line.value, filter) {
            panel.Add(line);
            if selected == Some(line) {
              panel.SetSelected(n);
            }
            n := n + 1;
          }
        }
      } else {
        ViewAll(lines);
        for i := 0 to |lines|
          invariant panel.items == lines[..i] && panel.Valid()
          invariant if selected.Some? && selected.value in panel.items
                    then panel.items[panel.selected] == selected.value else panel.selected == 0
        {
          panel.Add(lines[i]);
          if selected == Some(lines[i]) {
            panel.SetSelected(i);
          }
        }
      }
      assert lines[..|lines|] == lines;
      ViewMember(lines, shown);
    }

    /** Selects the first item that contains `text`. */
    static method Search(text: string, panel: Panel) returns (hit: bool)
      requires panel.Valid()
      modifies panel`selected
      ensures panel.Valid() && (hit <==> SomeHit(panel, text))
      ensures hit ==> FirstHit(panel, text)
      ensures hit <==> exists i :: 0 <= i < |panel.items| && ContainsI(panel.items[i].value, text)
      ensures hit ==>
                && panel.selected < |panel.items| && ContainsI(panel.items[panel.selected].value, text)
                && forall i :: 0 <= i < panel.selected ==> !ContainsI(panel.items[i].value, text)
      ensures !hit ==> panel.selected == old(panel.selected)
    {
      hide ContainsI;
      for i := 0 to |panel.items|
        invariant panel.selected == old(panel.selected)
        invariant forall j :: 0 <= j < i ==> !ContainsI(panel.items[j].value, text)
      {
        if ContainsI(panel.items[i].value, text) {
          panel.SetSelected(i);
          return true;
        }
      }
      return false;
    }

    /** `IncMode_find`: the next item, around the panel, that contains `text`; never the selected one itself. */
    static method Find(text: string, panel: Panel, forward: bool) returns (hit: bool)
      requires panel.Valid() && panel.items != []
      modifies panel`selected
      ensures panel.Valid()
      ensures hit <==> OtherHit(panel, old(panel.selected), text)
      ensures hit ==> FoundNext(panel, old(panel.selected), forward, text)
      ensures !hit ==> panel.selected == old(panel.selected)
      ensures hit <==> exists i :: 0 <= i < |panel.items| && i != old(panel.selected) && ContainsI(panel.items[i].value, text)
      // every other match lies beyond the one found, seen from where the search started
      ensures hit ==>
                && panel.selected < |panel.items| && ContainsI(panel.items[panel.selected].value, text)
                && forall i :: 0 <= i < |panel.items| && i != old(panel.selected) && ContainsI(panel.items[i].value, text) ==>
                     var here, found := old(panel.selected), panel.selected;
                     if forward then (if found > here then i < here || i >= found else found <= i < here)
                     else (if found < here then i > here || i <= found else here < i <= found)
    {
      hide ContainsI;
      var size, here := |panel.items|, panel.selected;
      var i: int := here;
      ghost var d := 0;
      while true
        invariant 0 <= d < size && i == Around(here, d, forward, size) && 0 <= i < size
        invariant panel.selected == here
        invariant Missed(panel, here, d, forward, text)
        decreases size - d
      {
        i := i + if forward then 1 else -1;
        if i == size {
          i := 0;
        }
        if i == -1 {
          i := size - 1;
        }
        d := d + 1;
        if i == here {
          forall j | 0 <= j < size && j != here ensures !ContainsI(panel.items[j].value, text) {
            var e := StepsTo(here, j, forward, size);
            assert Around(here, e, forward, size) == j;
          }
          return false;
        }
        if ContainsI(panel.items[i].value, text) {
          panel.SetSelected(i);
          assert FoundAfter(panel, here, d, forward, text);
          FoundBeyond(panel, here, d, forward, text);
          return true;
        }
      }
    }

    /** `IncSet_handleKey`. Without lines the panel is left for the caller to rebuild. */
    method HandleKey(key: KeyStroke, panel: Panel, lines: Option<seq<ListItem>>) returns (filterChanged: bool)
      requires Valid() && active.Some? && panel.Valid()
      modifies this, panel
      ensures Valid() && panel.Valid()
      // the text of the active mode
      ensures var was, now := old(Text()), if old(active) == Some(INC_FILTER) then filter else search;
              match key
              case Print(c) => now == if |was| < 40 then was + [c] else was
              case Backspace => now == if was == "" then "" else was[..|was| - 1]
              case Escape => now == ""
              case _ => now == was
      ensures if old(active) == Some(INC_FILTER) then search == old(search) else filter == old(filter)
      // the active mode and the filter
      ensures active == if key.Escape? || key.Done? then None else old(active)
      ensures old(Filter() == if filter == "" then None else Some(filter)) ==>
                Filter() == if filter == "" then None else Some(filter)
      ensures old(active) == Some(INC_SEARCH) ==> Filter() == old(Filter())
      // the panel
      ensures !filterChanged ==> Filter() == old(Filter()) && panel.items == old(panel.items)
      ensures filterChanged && !key.NoKey? && (key.Next? || key.Previous? ==> old(panel.items) != []) ==>
                panel.items == if lines.Some? then View(lines.value, Filter()) else old(panel.items)
      ensures key.NoKey? || key.Next? || key.Previous? ==> Filter() == old(Filter()) && panel.items == old(panel.items)
      // the search
      ensures old(active) == Some(INC_SEARCH) && (key.Print? || ((key.Backspace? || key.Resize?) && old(search) != "")) ==>
                && found == SomeHit(panel, search)
                && (if found then FirstHit(panel, search) else panel.selected == old(panel.selected))
      ensures (key.Next? || key.Previous?) && old(panel.items) != [] ==>
                && panel.items == old(panel.items)
                && (if OtherHit(panel, old(panel.selected), Text())
                    then FoundNext(panel, old(panel.selected), key.Next?, Text())
                    else panel.selected == old(panel.selected))
    {
      hide View, ContainsI, FoundNext, FirstHit, SomeHit, OtherHit;
      if key == NoKey {
        return true;
      }
      filterChanged := false;
      var doSearch := true;
      if key == Next || key == Previous {
        if |panel.items| == 0 {
          return true;
        }
        var _ := Find(Text(), panel, key.Next?);
        doSearch := false;
      } else {
        filterChanged, doSearch := EditMode(key);
      }
      if doSearch {
        found := Search(Text(), panel);
      }
      if filterChanged && lines.Some? {
        UpdateWeakPanel(panel, lines.value);
      }
    }

    /** The keys that edit the active mode or leave it. */
    method EditMode(key: KeyStroke) returns (filterChanged: bool, doSearch: bool)
      requires Valid() && active.Some? && !key.NoKey? && !key.Next? && !key.Previous?
      modifies this`search, this`filter, this`active, this`filtering
      ensures Valid()
      ensures var was, now := old(Text()), if old(active) == Some(INC_FILTER) then filter else search;
              match key
              case Print(c) => now == if |was| < 40 then was + [c] else was
              case Backspace => now == if was == "" then "" else was[..|was| - 1]
              case Escape => now == ""
              case _ => now == was
      ensures if old(active) == Some(INC_FILTER) then search == old(search) else filter == old(filter)
      ensures active == if key.Escape? || key.Done? then None else old(active)
      ensures old(filtering == (filter != "")) ==> filtering == (filter != "")
      ensures !filterChanged ==> Filter() == old(Filter())
      ensures filterChanged ==> old(active) == Some(INC_FILTER)
      ensures doSearch <==> key.Print? || ((key.Backspace? || key.Resize?) && old(Text()) != "")
    {
      var isFilter := active == Some(INC_FILTER);
      var text := Text();
      filterChanged := false;
      doSearch := true;
      if key.Print? {
        if |text| < INCMODE_MAX {
          SetText(text + [key.c]);
          if isFilter {
            filterChanged := true;
            if |filter| == 1 {
              filtering := true;
            }
          }
        }
      } else if key == Backspace {
        if |text| > 0 {
          SetText(text[..|text| - 1]);
          if isFilter {
            filterChanged := true;
            if |filter| == 0 {
              filtering := false;
            }
          }
        } else {
          doSearch := false;
        }
      } else if key == Resize {
        doSearch := |text| > 0;
      } else {
        if isFilter {
          filterChanged := true;
          if key == Escape {
            filtering := false;
            filter := "";
          }
        } else {
          if key == Escape {
            search := "";
          }
        }
        active := None;
        doSearch := false;
      }
    }

    /** Writes the buffer of the active mode. */
    method SetText(text: string)
      requires active.Some? && |text| <= INCMODE_MAX
      modifies this`search, this`filter
      ensures search == if active == Some(INC_SEARCH) then text else old(search)
      ensures filter == if active == Some(INC_FILTER) then text else old(filter)
    {
      if active.value == INC_FILTER {
        filter := text;
      } else {
        search := text;
      }
    }
  }

  /** Types a text, key by key: it is all there, up to the size of the buffer. */
  method TypeText(inc: IncSet, text: string, panel: Panel, lines: Option<seq<ListItem>>)
    requires inc.Valid() && panel.Valid() && inc.active == Some(INC_FILTER)
    requires inc.Filter() == if inc.filter == "" then None else Some(inc.filter)
    modifies inc, panel
    ensures inc.Valid() && panel.Valid() && inc.active == Some(INC_FILTER)
    ensures var all := old(inc.filter) + text; inc.filter == if |all| <= 40 then all else all[..40]
    ensures inc.Filter() == if inc.filter == "" then None else Some(inc.filter)
  {
    hide View, ContainsI;
    for i := 0 to |text|
      invariant inc.Valid() && panel.Valid() && inc.active == Some(INC_FILTER)
      invariant var all := old(inc.filter) + text[..i]; inc.filter == if |all| <= 40 then all else all[..40]
      invariant inc.Filter() == if inc.filter == "" then None else Some(inc.filter)
    {
      assert old(inc.filter) + text[..i + 1] == old(inc.filter) + text[..i] + [text[i]];
      var _ := inc.HandleKey(Print(text[i]), panel, lines);
    }
    assert text[..|text|] == text;
  }

  /** Takes back as many characters as Backspace is struck. */
  method EraseText(inc: IncSet, n: nat, panel: Panel, lines: Option<seq<ListItem>>)
    requires inc.Valid() && panel.Valid() && inc.active == Some(INC_FILTER) && n <= |inc.filter|
    requires inc.Filter() == if inc.filter == "" then None else Some(inc.filter)
    modifies inc, panel
    ensures inc.Valid() && panel.Valid() && inc.active == Some(INC_FILTER)
    ensures inc.filter == old(inc.filter)[..|old(inc.filter)| - n]
    ensures inc.Filter() == if inc.filter == "" then None else Some(inc.filter)
  {
    hide View, ContainsI;
    for i := 0 to n
      invariant inc.Valid() && panel.Valid() && inc.active == Some(INC_FILTER)
      invariant inc.filter == old(inc.filter)[..|old(inc.filter)| - i]
      invariant inc.Filter() == if inc.filter == "" then None else Some(inc.filter)
    {
      var _ := inc.HandleKey(Backspace, panel, lines);
    }
  }

  /** A filter that is typed and taken back again leaves no filter. */
  method TypeAndErase(inc: IncSet, text: string, panel: Panel, lines: Option<seq<ListItem>>) returns (typed: string)
    requires inc.Valid() && panel.Valid() && inc.active == Some(INC_FILTER) && |text| <= 40
    requires inc.filter == "" && inc.Filter() == None
    modifies inc, panel
    ensures typed == text && inc.filter == "" && inc.Filter() == None
  {
    TypeText(inc, text, panel, lines);
    typed := inc.filter;
    EraseText(inc, |text|, panel, lines);
  }

  ghost predicate SomeHit(panel: Panel, text: string)
    reads panel`items, (set l | l in panel.items)`value
  {
    exists i :: 0 <= i < |panel.items| && ContainsI(panel.items[i].value, text)
  }

  /** Some item other than the one at `here` contains `text`. */
  ghost predicate OtherHit(panel: Panel, here: nat, text: string)
    reads panel`items, (set l | l in panel.items)`value
  {
    exists i :: 0 <= i < |panel.items| && i != here && ContainsI(panel.items[i].value, text)
  }

  /** The selected item is the first that contains `text`. */
  ghost predicate FirstHit(panel: Panel, text: string)
    reads panel, (set l | l in panel.items)`value
  {
    && panel.selected < |panel.items| && ContainsI(panel.items[panel.selected].value, text)
    && forall i :: 0 <= i < panel.selected ==> !ContainsI(panel.items[i].value, text)
  }

  /** None of the first `d` items around from `here` contains `text`. */
  ghost predicate Missed(panel: Panel, here: nat, d: nat, forward: bool, text: string)
    requires here < |panel.items| && d <= |panel.items|
    reads panel`items, (set l | l in panel.items)`value
  {
    forall e {:trigger Around(here, e, forward, |panel.items|)} :: 1 <= e <= d ==>
      var i := Around(here, e, forward, |panel.items|);
      i != here && 0 <= i < |panel.items| && !ContainsI(panel.items[i].value, text)
  }

  ghost predicate FoundAfter(panel: Panel, here: nat, d: nat, forward: bool, text: string)
    requires here < |panel.items| && 1 <= d <= |panel.items|
    reads panel, (set l | l in panel.items)`value
  {
    && panel.selected == Around(here, d, forward, |panel.items|) < |panel.items|
    && ContainsI(panel.items[panel.selected].value, text)
    && Missed(panel, here, d - 1, forward, text)
  }

  /** Positions around are positions in the panel: all other matches lie further around. */
  lemma FoundBeyond(panel: Panel, here: nat, d: nat, forward: bool, text: string)
    requires here < |panel.items| && 1 <= d < |panel.items| && FoundAfter(panel, here, d, forward, text)
    ensures forall i :: 0 <= i < |panel.items| && i != here && ContainsI(panel.items[i].value, text) ==>
              var found := panel.selected;
              if forward then (if found > here then i < here || i >= found else found <= i < here)
              else (if found < here then i > here || i <= found else here < i <= found)
  {
    hide ContainsI;
    var size := |panel.items|;
    forall i | 0 <= i < size && i != here && ContainsI(panel.items[i].value, text) ensures StepsTo(here, i, forward, size) >= d {
      var e := StepsTo(here, i, forward, size);
      assert Around(here, e, forward, size) == i;
    }
  }

  /** The selected item is the first after `here`, going around, that contains `text`. */
  ghost predicate FoundNext(panel: Panel, here: nat, forward: bool, text: string)
    requires here < |panel.items|
    reads panel, (set l | l in panel.items)`value
  {
    exists d :: 1 <= d < |panel.items| && FoundAfter(panel, here, d, forward, text)
  }

  /** How far around the item `i` is: going around once passes every item. */
  function StepsTo(here: nat, i: nat, forward: bool, size: nat): (e: nat)
    requires here < size && i < size && i != here
    ensures 1 <= e < size && Around(here, e, forward, size) == i
  {
    if forward then (if i > here then i - here else i - here + size)
    else (if i < here then here - i else here - i + size)
  }
}
