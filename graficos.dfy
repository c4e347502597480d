/** The expense chart of src/pages/Graficos.tsx: the month's expense rows are
    summed per category into a Map (keys in order of first appearance), each
    entry is labelled and coloured from the category table, the slices are
    sorted by value, largest first, and `total` adds the slices up. The month
    range is the Dashboard's (`Dashboard.MonthRange`). */
module Graficos {
  import opened Common
  import opened Records
  import opened Categories

  /** One chart slice: `{ name, value, color }`. */
  datatype Slice = Slice(name: string, value: real, color: string)

  // ---------------------------------------------------------------------
  // Per-category sums

  predicate InCategory(x: Row, k: string) {
    x.entry.categoria == k
  }

  /** The distinct categories of the rows, in order of first appearance:
      the key order of the `groups` Map. */
  function CategoryIds(rows: seq<Row>): (ids: seq<string>)
    ensures forall i, j :: 0 <= i < j < |ids| ==> ids[i] != ids[j]
    ensures forall k :: k in ids <==> exists x :: x in rows && InCategory(x, k)
  {
    if rows == [] then []
    else
      var init := rows[..|rows| - 1];
      var last := rows[|rows| - 1];
      var ids := CategoryIds(init);
      assert rows == init + [last];
      InCategorySnoc(init, last);
      var r := if last.entry.categoria in ids then ids else ids + [last.entry.categoria];
      assert forall k :: k in r <==> k in ids || InCategory(last, k);
      r
  }

  lemma InCategorySnoc(init: seq<Row>, last: Row)
    ensures forall k :: (exists x :: x in init + [last] && InCategory(x, k))
                        <==> (exists x :: x in init && InCategory(x, k)) || InCategory(last, k)
  {
    forall k | exists x :: x in init + [last] && InCategory(x, k)
      ensures (exists x :: x in init && InCategory(x, k)) || InCategory(last, k)
    {
      var x :| x in init + [last] && InCategory(x, k);
      if x != last { assert x in init; }
    }
    forall k | InCategory(last, k) ensures exists x :: x in init + [last] && InCategory(x, k) {
      assert last in init + [last];
    }
  }

  /** The sum of valor over the rows of category `k`. */
  function CategorySum(rows: seq<Row>, k: string): real {
    if rows == [] then 0.0
    else CategorySum(rows[..|rows| - 1], k)
         + (if rows[|rows| - 1].entry.categoria == k then rows[|rows| - 1].entry.valor else 0.0)
  }

  lemma CategoryIdsSnoc(prefix: seq<Row>, l: Row)
    ensures CategoryIds(prefix + [l])
            == if l.entry.categoria in CategoryIds(prefix) then CategoryIds(prefix)
               else CategoryIds(prefix) + [l.entry.categoria]
  {
    assert (prefix + [l])[..|prefix|] == prefix;
  }

  lemma CategorySumSnoc(prefix: seq<Row>, l: Row, k: string)
    ensures CategorySum(prefix + [l], k)
            == CategorySum(prefix, k) + (if l.entry.categoria == k then l.entry.valor else 0.0)
  {
    assert (prefix + [l])[..|prefix|] == prefix;
  }

  lemma {:induction false} CategorySumOfNone(rows: seq<Row>, k: string)
    requires forall x :: x in rows ==> x.entry.categoria != k
    ensures CategorySum(rows, k) == 0.0
  {
    if rows != [] {
      assert rows[|rows| - 1] in rows;
      CategorySumOfNone(rows[..|rows| - 1], k);
    }
  }

  /** The `groups` Map after the `forEach`: `groups.set(l.categoria,
      (groups.get(l.categoria) || 0) + l.valor)` for each row in turn. The
      keys come back in insertion order. */
  method CategoryTotals(rows: seq<Row>) returns (keys: seq<string>, groups: map<string, real>)
    ensures keys == CategoryIds(rows)
    ensures groups.Keys == set k | k in keys
    ensures forall k :: k in groups ==> groups[k] == CategorySum(rows, k)
  {
    keys := [];
    groups := map[];
    var i := 0;
    while i < |rows|
      invariant 0 <= i <= |rows|
      invariant keys == CategoryIds(rows[..i])
      invariant groups.Keys == set k | k in keys
      invariant forall k :: k in groups ==> groups[k] == CategorySum(rows[..i], k)
    {
      var l := rows[i];
      assert rows[..i + 1] == rows[..i] + [l];
      var k := l.entry.categoria;
      var before := if k in groups then groups[k] else 0.0;
      CategoryStep(keys, groups, rows[..i], l);
      if k !in groups {
        keys := keys + [k];
      }
      groups := groups[k := before + l.entry.valor];
      i := i + 1;
    }
    assert rows[..i] == rows;
  }

  /** One step of the loop: adding a row's value to its category keeps
      the keys and the sums those of the longer prefix. */
  lemma CategoryStep(keys: seq<string>, groups: map<string, real>, prefix: seq<Row>, l: Row)
    requires keys == CategoryIds(prefix)
    requires groups.Keys == set k | k in keys
    requires forall k :: k in groups ==> groups[k] == CategorySum(prefix, k)
    ensures var k := l.entry.categoria;
      var keys' := if k in groups then keys else keys + [k];
      var groups' := groups[k := (if k in groups then groups[k] else 0.0) + l.entry.valor];
      && keys' == CategoryIds(prefix + [l])
      && groups'.Keys == set x | x in keys'
      && forall x :: x in groups' ==> groups'[x] == CategorySum(prefix + [l], x)
  {
    var k := l.entry.categoria;
    var before := if k in groups then groups[k] else 0.0;
    CategoryKeysStep(keys, groups, prefix, l, before + l.entry.valor);
    assert before == CategorySum(prefix, k) by {
      if k !in groups { NewCategorySumIsZero(prefix, k); }
    }
    AddToCategory(groups, prefix, l, before);
  }

  /** The key half of a step: a new category is appended to the keys and
      becomes a key of the Map. */
  lemma CategoryKeysStep(keys: seq<string>, groups: map<string, real>, prefix: seq<Row>, l: Row, v: real)
    requires keys == CategoryIds(prefix)
    requires groups.Keys == set k | k in keys
    ensures var k := l.entry.categoria;
      var keys' := if k in groups then keys else keys + [k];
      keys' == CategoryIds(prefix + [l]) && groups[k := v].Keys == set x | x in keys'
  {
    var k := l.entry.categoria;
    CategoryIdsSnoc(prefix, l);
    assert k in groups <==> k in keys;
    if k !in groups {
      assert (set x | x in keys + [k]) == (set x | x in keys) + {k};
    }
  }

  lemma AddToCategory(groups: map<string, real>, prefix: seq<Row>, l: Row, before: real)
    requires forall k :: k in groups ==> groups[k] == CategorySum(prefix, k)
    requires before == CategorySum(prefix, l.entry.categoria)
    ensures var m := groups[l.entry.categoria := before + l.entry.valor];
      forall k :: k in m ==> m[k] == CategorySum(prefix + [l], k)
  {
    forall k ensures CategorySum(prefix + [l], k)
                     == CategorySum(prefix, k) + (if l.entry.categoria == k then l.entry.valor else 0.0) {
      CategorySumSnoc(prefix, l, k);
    }
  }

  /** The slice of category `k` with value `v`, labelled and coloured by
      `info`, which on the page is `GetCategoriaInfo`. */
  function SliceOf(k: string, v: real, info: string -> Categoria): Slice {
    Slice(info(k).caption, v, info(k).color)
  }

  /** The `.map(...)` over the Map entries. */
  function Slices(keys: seq<string>, groups: map<string, real>, info: string -> Categoria): (r: seq<Slice>)
    requires forall k :: k in keys ==> k in groups
    ensures |r| == |keys|
    ensures forall i :: 0 <= i < |keys| ==> r[i] == SliceOf(keys[i], groups[keys[i]], info)
  {
    if keys == [] then []
    else
      var k := keys[|keys| - 1];
      var init := keys[..|keys| - 1];
      assert forall k' :: k' in init ==> k' in keys;
      Slices(init, groups, info) + [SliceOf(k, groups[k], info)]
  }

  // ---------------------------------------------------------------------
  // The descending sort

  predicate SortedDesc(s: seq<Slice>) {
    forall i, j :: 0 <= i < j < |s| ==> s[i].value >= s[j].value
  }

  /** Inserting after every slice whose value is at least as large, as a
      stable sort with the comparator `b.value - a.value` places it. */
  function Insert(s: seq<Slice>, x: Slice): (r: seq<Slice>)
    requires SortedDesc(s)
    ensures SortedDesc(r)
    ensures multiset(r) == multiset(s) + multiset{x}
    ensures |r| == |s| + 1
  {
    if s == [] || s[|s| - 1].value >= x.value then
      s + [x]
    else
      var init := s[..|s| - 1];
      var last := s[|s| - 1];
      assert s == init + [last];
      var r := Insert(init, x);
      PermutationAbove(r, init, x, last.value);
      r + [last]
  }

  /** A rearrangement of slices at least `b` and one more slice at least `b`
      holds only slices at least `b`. */
  lemma PermutationAbove(r: seq<Slice>, s: seq<Slice>, x: Slice, b: real)
    requires multiset(r) == multiset(s) + multiset{x} && x.value >= b
    requires forall i :: 0 <= i < |s| ==> s[i].value >= b
    ensures forall i :: 0 <= i < |r| ==> r[i].value >= b
  {
    forall i | 0 <= i < |r| ensures r[i].value >= b {
      assert r[i] in multiset(s) + multiset{x};
      if r[i] != x {
        assert r[i] in multiset(s);
        var j :| 0 <= j < |s| && s[j] == r[i];
      }
    }
  }

  /** `.sort((a, b) => b.value - a.value)` */
  function SortDesc(s: seq<Slice>): (r: seq<Slice>)
    ensures SortedDesc(r)
    ensures multiset(r) == multiset(s)
  {
    if s == [] then []
    else
      assert s == s[..|s| - 1] + [s[|s| - 1]];
      Insert(SortDesc(s[..|s| - 1]), s[|s| - 1])
  }

  /** `total`: `chartData.reduce((s, d) => s + d.value, 0)` */
  function Total(s: seq<Slice>): real {
    if s == [] then 0.0 else Total(s[..|s| - 1]) + s[|s| - 1].value
  }

  lemma {:induction false} TotalAppend(a: seq<Slice>, b: seq<Slice>)
    ensures Total(a + b) == Total(a) + Total(b)
  {
    if b == [] {
      assert a + b == a;
    } else {
      assert (a + b)[..|a + b| - 1] == a + b[..|b| - 1];
      TotalAppend(a, b[..|b| - 1]);
    }
  }

  lemma {:induction false} TotalInsert(s: seq<Slice>, x: Slice)
    requires SortedDesc(s)
    ensures Total(Insert(s, x)) == Total(s) + x.value
  {
    if s == [] || s[|s| - 1].value >= x.value {
    } else {
      var init := s[..|s| - 1];
      TotalInsert(init, x);
      assert Insert(s, x)[..|Insert(s, x)| - 1] == Insert(init, x);
    }
  }

  /** Sorting keeps the total. */
  lemma {:induction false} TotalSort(s: seq<Slice>)
    ensures Total(SortDesc(s)) == Total(s)
  {
    if s != [] {
      TotalSort(s[..|s| - 1]);
      TotalInsert(SortDesc(s[..|s| - 1]), s[|s| - 1]);
    }
  }

  // ---------------------------------------------------------------------
  // The `chartData` memo

  /** `chartData`: one slice per category of the rows, holding that
      category's label, colour and sum, largest first. */
  method ChartData(rows: seq<Row>) returns (chart: seq<Slice>)
    ensures chart == SortDesc(Slices(CategoryIds(rows), GroupsOf(rows), GetCategoriaInfo))
    ensures SortedDesc(chart)
    ensures multiset(chart) == multiset(Slices(CategoryIds(rows), GroupsOf(rows), GetCategoriaInfo))
    ensures Total(chart) == SumValor(rows)
  {
    var keys, groups := CategoryTotals(rows);
    assert groups == GroupsOf(rows);
    chart := SortDesc(Slices(keys, groups, GetCategoriaInfo));
    ChartTotal(rows, GetCategoriaInfo);
  }

  /** The Map the loop builds, as a value. */
  function GroupsOf(rows: seq<Row>): (m: map<string, real>)
    ensures m.Keys == set k | k in CategoryIds(rows)
    ensures forall k :: k in m ==> m[k] == CategorySum(rows, k)
  {
    map k | k in CategoryIds(rows) :: CategorySum(rows, k)
  }

  /** The chart has one slice per distinct category: a slice for each
      category, with its label, colour and sum, and nothing else. */
  lemma ChartSlices(rows: seq<Row>, chart: seq<Slice>, info: string -> Categoria)
    requires multiset(chart) == multiset(Slices(CategoryIds(rows), GroupsOf(rows), info))
    ensures |chart| == |CategoryIds(rows)|
    ensures forall x :: x in rows ==> SliceFor(rows, x.entry.categoria, info) in chart
    ensures forall sl :: sl in chart ==> exists x :: x in rows && sl == SliceFor(rows, x.entry.categoria, info)
  {
    var ids := CategoryIds(rows);
    var sl := Slices(ids, GroupsOf(rows), info);
    assert |chart| == |multiset(chart)| == |multiset(sl)| == |sl|;
    forall x | x in rows ensures SliceFor(rows, x.entry.categoria, info) in chart {
      EachCategoryHasSlice(rows, x, info);
      assert SliceFor(rows, x.entry.categoria, info) in multiset(sl);
    }
    forall s | s in chart ensures exists x :: x in rows && s == SliceFor(rows, x.entry.categoria, info) {
      assert s in multiset(sl);
      EachSliceHasCategory(rows, s, info);
    }
  }

  /** The slice the chart shows for category `k`. */
  function SliceFor(rows: seq<Row>, k: string, info: string -> Categoria): Slice {
    SliceOf(k, CategorySum(rows, k), info)
  }

  lemma EachCategoryHasSlice(rows: seq<Row>, x: Row, info: string -> Categoria)
    requires x in rows
    ensures SliceFor(rows, x.entry.categoria, info) in Slices(CategoryIds(rows), GroupsOf(rows), info)
  {
    var ids := CategoryIds(rows);
    assert InCategory(x, x.entry.categoria);
    assert x.entry.categoria in ids;
    var i :| 0 <= i < |ids| && ids[i] == x.entry.categoria;
    assert Slices(ids, GroupsOf(rows), info)[i] == SliceFor(rows, x.entry.categoria, info);
  }

  lemma EachSliceHasCategory(rows: seq<Row>, s: Slice, info: string -> Categoria)
    requires s in Slices(CategoryIds(rows), GroupsOf(rows), info)
    ensures exists x :: x in rows && s == SliceFor(rows, x.entry.categoria, info)
  {
    var ids := CategoryIds(rows);
    var sl := Slices(ids, GroupsOf(rows), info);
    var i :| 0 <= i < |sl| && sl[i] == s;
    assert ids[i] in ids;
    var x :| x in rows && InCategory(x, ids[i]);
    assert s == SliceFor(rows, x.entry.categoria, info);
  }

  /** The per-category sums of distinct categories add up to the sum of all
      rows. */
  lemma {:induction false} CategorySumsTotal(rows: seq<Row>, info: string -> Categoria)
    ensures Total(Slices(CategoryIds(rows), GroupsOf(rows), info)) == SumValor(rows)
  {
    SumsOverIds(rows);
    SlicesTotal(CategoryIds(rows), GroupsOf(rows), rows, info);
  }

  /** The sum over ids of the per-category sums. */
  function SumOver(ids: seq<string>, rows: seq<Row>): real {
    if ids == [] then 0.0 else SumOver(ids[..|ids| - 1], rows) + CategorySum(rows, ids[|ids| - 1])
  }

  lemma {:induction false} SlicesTotal(ids: seq<string>, groups: map<string, real>, rows: seq<Row>, info: string -> Categoria)
    requires forall k :: k in ids ==> k in groups && groups[k] == CategorySum(rows, k)
    ensures Total(Slices(ids, groups, info)) == SumOver(ids, rows)
  {
    if ids != [] {
      var init := ids[..|ids| - 1];
      SlicesTotal(init, groups, rows, info);
      assert Slices(ids, groups, info)[..|ids| - 1] == Slices(init, groups, info);
    }
  }

  /** Adding one row to each per-category sum adds its amount exactly once
      over distinct ids that contain its category. */
  lemma {:induction false} SumOverSnoc(ids: seq<string>, prefix: seq<Row>, l: Row)
    requires forall i, j :: 0 <= i < j < |ids| ==> ids[i] != ids[j]
    ensures SumOver(ids, prefix + [l])
            == SumOver(ids, prefix) + (if l.entry.categoria in ids then l.entry.valor else 0.0)
  {
    if ids != [] {
      var init := ids[..|ids| - 1];
      var k := ids[|ids| - 1];
      SumOverSnoc(init, prefix, l);
      CategorySumSnoc(prefix, l, k);
      assert ids == init + [k];
      assert forall i :: 0 <= i < |init| ==> init[i] == ids[i];
    }
  }

  lemma {:induction false} SumsOverIds(rows: seq<Row>)
    ensures SumOver(CategoryIds(rows), rows) == SumValor(rows)
  {
    if rows != [] {
      var init := rows[..|rows| - 1];
      var l := rows[|rows| - 1];
      assert rows == init + [l];
      SumsOverIds(init);
      if l.entry.categoria in CategoryIds(init) {
        SumsStepKnown(init, l);
      } else {
        SumsStepNew(init, l);
      }
    }
  }

  lemma SumsStepKnown(init: seq<Row>, l: Row)
    requires l.entry.categoria in CategoryIds(init)
    ensures SumOver(CategoryIds(init + [l]), init + [l]) == SumOver(CategoryIds(init), init) + l.entry.valor
  {
    CategoryIdsSnoc(init, l);
    SumOverSnoc(CategoryIds(init), init, l);
  }

  lemma SumsStepNew(init: seq<Row>, l: Row)
    requires l.entry.categoria !in CategoryIds(init)
    ensures SumOver(CategoryIds(init + [l]), init + [l]) == SumOver(CategoryIds(init), init) + l.entry.valor
  {
    var c := l.entry.categoria;
    var ids := CategoryIds(init);
    CategoryIdsSnoc(init, l);
    assert CategoryIds(init + [l]) == ids + [c];
    SumOverSnoc(ids + [c], init, l);
    NewCategorySumIsZero(init, c);
    assert (ids + [c])[..|ids|] == ids;
  }

  lemma NewCategorySumIsZero(rows: seq<Row>, c: string)
    requires c !in CategoryIds(rows)
    ensures CategorySum(rows, c) == 0.0
  {
    forall x | x in rows ensures x.entry.categoria != c {
      assert !InCategory(x, c);
    }
    CategorySumOfNone(rows, c);
  }

  /** `total` is the sum of valor over all the month's expense rows. */
  lemma ChartTotal(rows: seq<Row>, info: string -> Categoria)
    ensures Total(SortDesc(Slices(CategoryIds(rows), GroupsOf(rows), info))) == SumValor(rows)
  {
    TotalSort(Slices(CategoryIds(rows), GroupsOf(rows), info));
    CategorySumsTotal(rows, info);
  }

  /** A category id the table does not know is shown as "Outros", in the
      colour of "outros". */
  lemma UnknownSliceIsOutros(k: string, v: real)
    requires forall c :: c in CATEGORIAS ==> c.id != k
    ensures SliceOf(k, v, GetCategoriaInfo) == Slice("Outros", v, Outros.color)
  {
    OutrosIsLast();
    assert GetCategoriaInfo(k) == Outros;
  }

  /** A known category is shown with its own label and colour. */
  lemma KnownSliceLabel(k: string, v: real, c: Categoria)
    requires c in CATEGORIAS && c.id == k
    ensures SliceOf(k, v, GetCategoriaInfo) == Slice(c.caption, v, c.color)
  {
    LookupIsUnique(k, c);
  }
}
