/** An info screen: all its lines, and the filtered view of them that its panel shows (InfoScreen.c;
    the scan is the one of EnvScreen.c). */
module InfoScreens {
  import opened Options
  import opened Order
  import opened Text
  import opened VectorSort
  import opened ProcessCompare
  import opened IncSets

  class InfoScreen {
    const display: Panel
    const inc: IncSet
    var lines: seq<ListItem>

    ghost predicate Valid()
      reads this, display, inc
    {
      && display.Valid() && inc.Valid()
      && NoDup(lines)
    }

    /** The panel shows exactly the lines that pass the filter, in order. */
    ghost predicate Viewed()
      reads this, display, inc, (set l | l in lines)`value
    {
      display.items == View(lines, inc.Filter())
    }

    constructor ()
      ensures Valid() && Viewed() && fresh(display) && fresh(inc) && lines == []
    {
      display := new Panel();
      inc := new IncSet();
      lines := [];
    }

    method AddLine(line: string)
      requires Valid()
      modifies this`lines, display`items
      ensures Valid() && Texts(lines) == old(Texts(lines)) + [line]
      ensures lines != [] && lines[..|lines| - 1] == old(lines)
      ensures old(Viewed()) ==> Viewed()
      ensures display.items == old(display.items) +
                (if inc.Filter() == None || ContainsI(line, inc.Filter().value) then [lines[|lines| - 1]] else [])
    {
      hide ContainsI, View, Texts;
      var item := new ListItem(line);
      ghost var before := lines;
      assert item !in before;
      lines := lines + [item];
      assert lines[..|before|] == before && lines[..|before| + 1] == lines;
      TextsNext(before, item);
      ViewNext(lines, |before|, inc.Filter());
      var incFilter := inc.Filter();
      if incFilter == None || ContainsI(line, incFilter.value) {
        display.Add(lines[|lines| - 1]);
      }
    }

    /** Appends to the last line, in place. Only the appended fragment is looked at, so the view survives unless a
        match straddles the seam. */
    method AppendLine(line: string)
      requires Valid() && lines != [] && (inc.Filter().Some? ==> display.items != [])
      modifies lines[|lines| - 1], display`items
      ensures Valid() && lines == old(lines)
      ensures lines[|lines| - 1].value == old(lines[|lines| - 1].value) + line
      ensures old(Viewed()) ==>
                var last, filter := old(lines[|lines| - 1].value), inc.Filter();
                (Viewed() <==> filter == None || ContainsI(last, filter.value) || ContainsI(line, filter.value)
                               || !ContainsI(last + line, filter.value))
    {
      hide ContainsI, View;
      ghost var front, n, was, items := lines[..|lines| - 1], |lines| - 1, lines[|lines| - 1].value, display.items;
      var incFilter := inc.Filter();
      ViewLast(lines, incFilter);
      assert lines[n] !in front;
      ghost var shown := View(front, incFilter);
      var last := lines[|lines| - 1];
      last.Append(line);
      assert View(front, incFilter) == shown;
      ViewLast(lines, incFilter);
      ContainsAppended(was, line, if incFilter.Some? then incFilter.value else "");
      if incFilter.Some? && display.items[|display.items| - 1] != last && ContainsI(line, incFilter.value) {
        display.Add(last);
      }
      if old(Viewed()) {
        Seam(shown, last, items, display.items, was, line, incFilter);
      }
    }

    /** A key while a search or a filter is being typed. */
    method HandleKey(key: KeyStroke)
      requires Valid() && Viewed() && inc.active.Some?
      modifies display, inc
      ensures Valid() && Viewed()
    {
      hide View, ContainsI, NoDup;
      var _ := inc.HandleKey(key, display, Some(lines));
    }

    /** The values of the lines, as a value. */
    ghost function Values(): map<ListItem, string>
      reads this`lines, (set l | l in lines)`value
    {
      map l | l in lines :: l.value
    }

    /** The two insertion sorts at the end of a scan: one of the lines, one of the view. */
    method SortBoth()
      requires Valid() && Viewed()
      modifies this`lines, display`items
      ensures Valid() && Viewed() && multiset(lines) == multiset(old(lines))
      ensures lines == SortBy(ByValue(old(Values())), old(lines))
      ensures forall i, j :: 0 <= i < j < |lines| ==> Strcmp(lines[i].value, lines[j].value) <= 0
    {
      hide View, SortBy, Sorted, TotalPreorder, Strcmp, NoDup;
      var values := map l | l in lines :: l.value;
      var cmp := ByValue(values);
      ghost var all, filter := lines, inc.Filter();
      var a := new ListItem[|lines|](i requires 0 <= i < |lines| reads this => lines[i]);
      assert a[..] == lines;
      InsertionSort(a, cmp);
      var b := new ListItem[|display.items|](i requires 0 <= i < |display.items| reads this, display => display.items[i]);
      assert b[..] == display.items;
      InsertionSort(b, cmp);
      ViewSorts(all, values, filter);
      NoDupPermutes(all, a[..]);
      lines := a[..];
      display.items := b[..];
    }

    method ReadLines(text: seq<string>)
      requires Valid() && Viewed()
      modifies this`lines, display`items
      ensures Valid() && Viewed() && Texts(lines) == old(Texts(lines)) + text
    {
      hide View, Texts, NoDup, ContainsI;
      for i := 0 to |text|
        invariant Valid() && Viewed() && Texts(lines) == old(Texts(lines)) + text[..i]
      {
        AddLine(text[i]);
        assert text[..i + 1] == text[..i] + [text[i]];
      }
      assert text[..|text|] == text;
    }

    /** `EnvScreen_scan`, after the lines were pruned: reads the lines anew, then sorts lines and view. */
    method Scan(text: seq<string>)
      requires Valid() && lines == []
      modifies this`lines, display
      ensures Valid() && Viewed()
      ensures forall i, j :: 0 <= i < j < |lines| ==> Strcmp(lines[i].value, lines[j].value) <= 0
      ensures multiset(Texts(lines)) == multiset(text)
    {
      hide View, Strcmp, Texts, NoDup, ContainsI, SortBy, ByValue;
      var idx := display.selected;
      display.Prune();
      assert lines[..0] == lines;
      ViewNothing(lines, inc.Filter());
      ReadLines(text);
      ghost var unsorted := lines;
      SortBoth();
      TextsPermute(unsorted, lines);
      display.SetSelected(idx);
    }
  }

  /** `ListItem_compare`, on the values at hand. */
  function ByValue(values: map<ListItem, string>): (ListItem, ListItem) -> int {
    (a: ListItem, b: ListItem) => if a in values && b in values then Strcmp(values[a], values[b]) else 0
  }

  lemma ByValueOrders(values: map<ListItem, string>)
    ensures TotalPreorder(ByValue(values), values.Keys)
  {
    hide Strcmp;
    var cmp := ByValue(values);
    forall x, y | x in values && y in values ensures cmp(x, y) <= 0 || cmp(y, x) <= 0 {
      StrcmpOrders(values[x], values[y], values[x]);
    }
    forall x, y, z | x in values && y in values && z in values && cmp(x, y) <= 0 && cmp(y, z) <= 0 ensures cmp(x, z) <= 0 {
      StrcmpOrders(values[x], values[y], values[z]);
    }
  }

  function Shows(shown: set<ListItem>): ListItem -> bool { (l: ListItem) => l in shown }

  lemma {:induction false} ViewFilters(lines: seq<ListItem>, filter: Option<string>, shown: set<ListItem>)
    requires forall l :: l in lines ==> (l in shown <==> Passes(l.value, filter))
    ensures View(lines, filter) == Filter(Shows(shown), lines)
  {
    if lines != [] { ViewFilters(lines[..|lines| - 1], filter, shown); }
  }

  /** Sorting the lines and sorting the view separately keeps the view a view: the sort is stable, and
      a stable sort commutes with filtering. */
  lemma ViewSorts(lines: seq<ListItem>, values: map<ListItem, string>, filter: Option<string>)
    requires values.Keys == (set l | l in lines) && forall l :: l in lines ==> values[l] == l.value
    ensures var cmp := ByValue(values); var sorted := SortBy(cmp, lines);
            && View(sorted, filter) == SortBy(cmp, View(lines, filter))
            && multiset(sorted) == multiset(lines)
            && (forall i, j :: 0 <= i < j < |sorted| ==> Strcmp(sorted[i].value, sorted[j].value) <= 0)
  {
    hide View, Strcmp, TotalPreorder, SortBy, Filter, Passes;
    var cmp, all := ByValue(values), Elements(lines);
    var sorted := SortBy(cmp, lines);
    var shown := set l | l in lines && Passes(l.value, filter);
    ByValueOrders(values);
    SortPermutes(cmp, lines);
    SameElements(sorted, lines);
    assert forall l :: l in sorted ==> l in Elements(lines);
    assert forall l :: l in sorted ==> (l in lines && (l in shown <==> Passes(l.value, filter)));
    ViewFilters(lines, filter, shown);
    ViewFilters(sorted, filter, shown);
    SortFilters(cmp, Shows(shown), lines, values.Keys);
    SortSorts(cmp, lines, values.Keys);
    forall i, j | 0 <= i < j < |sorted| ensures Strcmp(sorted[i].value, sorted[j].value) <= 0 {
      assert sorted[i] in sorted && sorted[j] in sorted;
      assert cmp(sorted[i], sorted[j]) <= 0;
    }
  }

  ghost function Texts(lines: seq<ListItem>): (r: seq<string>)
    reads (set l | l in lines)`value
    ensures |r| == |lines| && forall i :: 0 <= i < |lines| ==> r[i] == lines[i].value
  {
    if lines == [] then [] else Texts(lines[..|lines| - 1]) + [lines[|lines| - 1].value]
  }

  lemma TextsNext(lines: seq<ListItem>, item: ListItem)
    ensures Texts(lines + [item]) == Texts(lines) + [item.value]
  {
    assert (lines + [item])[..|lines|] == lines;
  }

  lemma TextsPull(a: seq<ListItem>, x: ListItem, b: seq<ListItem>)
    ensures multiset(Texts(a + [x] + b)) == multiset(Texts(a + b)) + multiset{x.value}
  {
    hide Texts;
    assert Texts(a + [x] + b) == Texts(a) + [x.value] + Texts(b);
    assert Texts(a + b) == Texts(a) + Texts(b);
  }

  lemma {:induction false} TextsPermute(a: seq<ListItem>, b: seq<ListItem>)
    requires multiset(a) == multiset(b)
    ensures multiset(Texts(a)) == multiset(Texts(b))
    decreases |a|
  {
    hide Texts;
    SameElements(a, b);
    if a == [] {
      assert a == b;
    } else {
      var front, x := a[..|a| - 1], a[|a| - 1];
      DropLast(a);
      assert x in Elements(a);
      var k :| 0 <= k < |b| && b[k] == x;
      var c, d := b[..k], b[k + 1..];
      assert b == c + [x] + d;
      assert multiset(c + d) == multiset(b) - multiset{x};
      TextsPermute(front, c + d);
      TextsPull(front, x, []);
      TextsPull(c, x, d);
      assert front + [x] + [] == a && front + [] == front;
    }
  }

  lemma ViewLast(lines: seq<ListItem>, filter: Option<string>)
    requires lines != []
    ensures View(lines, filter) ==
            View(lines[..|lines| - 1], filter) + if Passes(lines[|lines| - 1].value, filter) then [lines[|lines| - 1]] else []
    ensures var front := lines[..|lines| - 1]; forall l :: l in View(front, filter) ==> l in front
  {
    ViewMember(lines[..|lines| - 1], filter);
  }

  /** The panel before and after `last` grew from `was` to `was + line`. */
  lemma Seam(shown: seq<ListItem>, last: ListItem, items: seq<ListItem>, items': seq<ListItem>,
             was: string, line: string, filter: Option<string>)
    requires last !in shown && items == shown + (if Passes(was, filter) then [last] else [])
    requires filter.Some? ==> items != []
    requires items' == if filter.Some? && items[|items| - 1] != last && ContainsI(line, filter.value) then items + [last] else items
    requires filter.Some? && (ContainsI(was, filter.value) || ContainsI(line, filter.value)) ==>
               ContainsI(was + line, filter.value)
    ensures items' == shown + (if Passes(was + line, filter) then [last] else []) <==> AppendKeeps(was, line, filter)
  {
    hide ContainsI;
    if Passes(was, filter) {
      assert items[|items| - 1] == last;
    } else {
      assert items == shown && shown[|shown| - 1] != last;
      assert |shown + [last]| != |shown|;
    }
  }

  /** Only the appended fragment is looked at, so a match across the seam goes unseen. */
  predicate AppendKeeps(last: string, fragment: string, filter: Option<string>) {
    filter == None || ContainsI(last, filter.value) || ContainsI(fragment, filter.value)
    || !ContainsI(last + fragment, filter.value)
  }

  /** A line "xa" continued by "b" comes to contain the filter "ab", and stays hidden. */
  lemma AppendStraddles()
    ensures !ContainsI("xa", "ab") && !ContainsI("b", "ab") && ContainsI("xa" + "b", "ab")
  {
    assert BeginsI("xab"[1..], "ab");
    assert "xa" + "b" == "xab";
    forall i | 0 <= i <= 2 ensures !BeginsI("xa"[i..], "ab") {
      if i == 0 { assert "xa"[0..][0] == 'x'; }
      assert |"xa"[i..]| == 2 - i;
    }
  }
}
