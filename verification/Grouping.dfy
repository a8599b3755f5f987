/** One entry per index or constraint from one catalog row per column (`meta.rs`). */
module Grouping {
  import opened Text

  datatype Row<K, C, T> = Row(key: K, member: C, extra: T)

  datatype Group<K, C, T> = Group(key: K, members: seq<C>, extra: T)

  /** One more row in front. */
  function Prepend<K(==), C, T>(r: Row<K, C, T>, gs: seq<Group<K, C, T>>): seq<Group<K, C, T>> {
    if gs != [] && gs[0].key == r.key then [Group(r.key, [r.member] + gs[0].members, r.extra)] + gs[1..]
    else [Group(r.key, [r.member], r.extra)] + gs
  }

  /** The maximal stretches of rows of one key, each with the extra of its first row. */
  function Runs<K(==), C, T>(rows: seq<Row<K, C, T>>): (gs: seq<Group<K, C, T>>)
    ensures rows != [] ==> gs != [] && gs[0].key == rows[0].key
  {
    if rows == [] then [] else Prepend(rows[0], Runs(rows[1..]))
  }

  /** One more row at the end. */
  function Extend<K(==), C, T>(gs: seq<Group<K, C, T>>, r: Row<K, C, T>): seq<Group<K, C, T>> {
    var n := |gs|;
    if n > 0 && gs[n - 1].key == r.key then gs[n - 1 := gs[n - 1].(members := gs[n - 1].members + [r.member])]
    else gs + [Group(r.key, [r.member], r.extra)]
  }

  lemma {:induction false} RunsAppend<K, C, T>(rows: seq<Row<K, C, T>>, r: Row<K, C, T>)
    ensures Runs(rows + [r]) == Extend(Runs(rows), r)
  {
    if rows == [] {
      assert rows + [r] == [r] && [r][1..] == [];
    } else {
      SliceConcat(rows, [r], 1);
      RunsAppend(rows[1..], r);
      ExtendPrepend(Runs(rows[1..]), rows[0], r);
    }
  }

  lemma ExtendPrepend<K, C, T>(gs: seq<Group<K, C, T>>, a: Row<K, C, T>, z: Row<K, C, T>)
    ensures Prepend(a, Extend(gs, z)) == Extend(Prepend(a, gs), z)
  {
    if |gs| == 1 && gs[0].key == a.key == z.key {
      assert [a.member] + (gs[0].members + [z.member]) == [a.member] + gs[0].members + [z.member];
    }
  }

  // ------------------------------ what a grouping is --------------------

  /** The groups cut the rows, in order, into non-empty stretches of one key; neighbours differ in key. */
  predicate IsGrouping<K(==), C(==), T(==)>(gs: seq<Group<K, C, T>>, rows: seq<Row<K, C, T>>)
    decreases |gs|
  {
    if gs == [] then rows == []
    else
      var g, n := gs[0], |gs[0].members|;
      && 0 < n <= |rows| && g.extra == rows[0].extra
      && (forall k :: 0 <= k < n ==> rows[k].key == g.key && rows[k].member == g.members[k])
      && (|gs| > 1 ==> gs[1].key != g.key)
      && IsGrouping(gs[1..], rows[n..])
  }

  /** There is exactly one grouping. */
  lemma RunsIff<K, C, T>(gs: seq<Group<K, C, T>>, rows: seq<Row<K, C, T>>)
    ensures IsGrouping(gs, rows) <==> gs == Runs(rows)
  {
    RunsAreGrouping(rows);
    if IsGrouping(gs, rows) { GroupingIsRuns(gs, rows); }
  }

  lemma {:induction false} RunsAreGrouping<K, C, T>(rows: seq<Row<K, C, T>>)
    ensures IsGrouping(Runs(rows), rows)
  {
    if rows != [] {
      var r, rest := rows[0], rows[1..];
      var gs, all := Runs(rest), Runs(rows);
      RunsAreGrouping(rest);
      if gs != [] && gs[0].key == r.key {
        var n := |gs[0].members|;
        assert rest[n..] == rows[n + 1..] && all[1..] == gs[1..];
        assert forall k :: 0 < k < n + 1 ==> rows[k] == rest[k - 1];
      } else {
        assert all[1..] == gs;
      }
    }
  }

  lemma {:induction false} GroupingIsRuns<K, C, T>(gs: seq<Group<K, C, T>>, rows: seq<Row<K, C, T>>)
    requires IsGrouping(gs, rows)
    ensures gs == Runs(rows)
    decreases |rows|
  {
    if gs != [] {
      var g, rest := gs[0], rows[1..];
      var n := |g.members|;
      if n == 1 {
        GroupingIsRuns(gs[1..], rest);
        assert gs == [g] + gs[1..] && g.members == [rows[0].member];
        if |gs| > 1 { assert gs[1..][0] == gs[1]; }
      } else {
        var g' := Group(g.key, g.members[1..], rest[0].extra);
        var gs' := [g'] + gs[1..];
        assert rest[n - 1..] == rows[n..] && gs'[1..] == gs[1..];
        assert |gs| > 1 ==> gs'[1] == gs[1];
        GroupingIsRuns(gs', rest);
        assert g.members == [rows[0].member] + g.members[1..];
        assert gs == [g] + gs[1..];
      }
    }
  }

  // ------------------------------ the loops -----------------------------

  /** `group_rows`: the groups it hands to `build`, in order. */
  method GroupRows<K(==), T>(rows: seq<Row<K, string, T>>) returns (built: seq<Group<K, string, T>>)
    ensures built == Runs(rows)
  {
    built := [];
    if rows == [] {
      return;
    }
    var key, cols, extra := rows[0].key, [rows[0].member], rows[0].extra;
    assert rows[..1] == [] + [rows[0]];
    RunsAppend([], rows[0]);
    for i := 1 to |rows|
      invariant Runs(rows[..i]) == built + [Group(key, cols, extra)]
    {
      assert rows[..i + 1] == rows[..i] + [rows[i]];
      RunsAppend(rows[..i], rows[i]);
      if rows[i].key == key {
        cols := cols + [rows[i].member];
      } else {
        built := built + [Group(key, cols, extra)];
        key, extra := rows[i].key, rows[i].extra;
        cols := [rows[i].member];
      }
    }
    assert rows[..|rows|] == rows;
    built := built + [Group(key, cols, extra)];
  }

  datatype FkRow = FkRow(name: string, column: string, refSchema: string, refTable: string, refColumn: string,
    onUpdate: string, onDelete: string)

  datatype ForeignKey = ForeignKey(name: string, columns: seq<string>, refSchema: string, refTable: string,
    refColumns: seq<string>, onUpdate: string, onDelete: string)

  /** What a foreign key takes from its first row. */
  datatype Target = Target(refSchema: string, refTable: string, onUpdate: string, onDelete: string)

  type FkGroup = Group<string, (string, string), Target>

  function AsRow(r: FkRow): Row<string, (string, string), Target> {
    Row(r.name, (r.column, r.refColumn), Target(r.refSchema, r.refTable, r.onUpdate, r.onDelete))
  }

  function AsRows(rows: seq<FkRow>): (r: seq<Row<string, (string, string), Target>>)
    ensures |r| == |rows| && forall k :: 0 <= k < |r| ==> r[k] == AsRow(rows[k])
  {
    seq(|rows|, i requires 0 <= i < |rows| => AsRow(rows[i]))
  }

  function Lefts(pairs: seq<(string, string)>): (r: seq<string>)
    ensures |r| == |pairs| && forall k :: 0 <= k < |r| ==> r[k] == pairs[k].0
  {
    seq(|pairs|, i requires 0 <= i < |pairs| => pairs[i].0)
  }

  function Rights(pairs: seq<(string, string)>): (r: seq<string>)
    ensures |r| == |pairs| && forall k :: 0 <= k < |r| ==> r[k] == pairs[k].1
  {
    seq(|pairs|, i requires 0 <= i < |pairs| => pairs[i].1)
  }

  function AsKey(g: FkGroup): ForeignKey {
    ForeignKey(g.key, Lefts(g.members), g.extra.refSchema, g.extra.refTable, Rights(g.members), g.extra.onUpdate,
      g.extra.onDelete)
  }

  function AsKeys(gs: seq<FkGroup>): (r: seq<ForeignKey>)
    ensures |r| == |gs| && forall k :: 0 <= k < |r| ==> r[k] == AsKey(gs[k])
  {
    seq(|gs|, i requires 0 <= i < |gs| => AsKey(gs[i]))
  }

  lemma FkStep(gs: seq<FkGroup>, r: FkRow)
    ensures var n := |gs|;
      AsKeys(Extend(gs, AsRow(r))) ==
        if n > 0 && gs[n - 1].key == r.name then
          var last := AsKey(gs[n - 1]);
          AsKeys(gs)[n - 1 := last.(columns := last.columns + [r.column],
                                    refColumns := last.refColumns + [r.refColumn])]
        else
          AsKeys(gs) + [ForeignKey(r.name, [r.column], r.refSchema, r.refTable, [r.refColumn], r.onUpdate, r.onDelete)]
  {
    var n, pair := |gs|, (r.column, r.refColumn);
    if n > 0 && gs[n - 1].key == r.name {
      assert Lefts(gs[n - 1].members + [pair]) == Lefts(gs[n - 1].members) + [r.column];
      assert Rights(gs[n - 1].members + [pair]) == Rights(gs[n - 1].members) + [r.refColumn];
    } else {
      assert Lefts([pair]) == [r.column] && Rights([pair]) == [r.refColumn];
    }
  }

  /** `collect_fks`, which extends its last entry in place. The columns of a key and the columns they refer to
      stay in step. */
  method CollectFks(rows: seq<FkRow>) returns (out: seq<ForeignKey>)
    ensures out == AsKeys(Runs(AsRows(rows)))
    ensures forall k :: 0 <= k < |out| ==> |out[k].columns| == |out[k].refColumns|
  {
    hide Runs, Extend;
    out := [];
    RunsOfNothing();
    assert AsRows(rows[..0]) == [];
    for i := 0 to |rows|
      invariant out == AsKeys(Runs(AsRows(rows[..i])))
    {
      var r := rows[i];
      assert AsRows(rows[..i + 1]) == AsRows(rows[..i]) + [AsRow(r)];
      RunsAppend(AsRows(rows[..i]), AsRow(r));
      FkStep(Runs(AsRows(rows[..i])), r);
      var n := |out|;
      if n > 0 && out[n - 1].name == r.name {
        var last := out[n - 1];
        out := out[n - 1 := last.(columns := last.columns + [r.column], refColumns := last.refColumns + [r.refColumn])];
      } else {
        out := out + [ForeignKey(r.name, [r.column], r.refSchema, r.refTable, [r.refColumn], r.onUpdate, r.onDelete)];
      }
    }
    assert rows[..|rows|] == rows;
  }

  lemma RunsOfNothing()
    ensures AsKeys(Runs([])) == []
  {
  }

  // ------------------------------ ordered rows --------------------------

  /** Rows of one key stand together. */
  predicate Clustered<K(==), C, T>(rows: seq<Row<K, C, T>>) {
    forall i, j, k :: 0 <= i < j < k < |rows| && rows[i].key == rows[k].key ==> rows[j].key == rows[i].key
  }

  predicate KeysDistinct<K(==), C, T>(gs: seq<Group<K, C, T>>) {
    forall i, j :: 0 <= i < j < |gs| ==> gs[i].key != gs[j].key
  }

  /** The members of all the rows of a key, in order. */
  function MembersOf<K(==), C, T>(rows: seq<Row<K, C, T>>, key: K): seq<C> {
    if rows == [] then [] else (if rows[0].key == key then [rows[0].member] else []) + MembersOf(rows[1..], key)
  }

  function MembersIn<K(==), C, T>(gs: seq<Group<K, C, T>>, key: K): seq<C> {
    if gs == [] then [] else (if gs[0].key == key then gs[0].members else []) + MembersIn(gs[1..], key)
  }

  predicate HasKey<K(==), C, T>(rows: seq<Row<K, C, T>>, key: K) { exists i :: 0 <= i < |rows| && rows[i].key == key }

  predicate GroupHasKey<K(==), C, T>(gs: seq<Group<K, C, T>>, key: K) { exists i :: 0 <= i < |gs| && gs[i].key == key }

  lemma {:induction false} RunsHaveKeys<K, C, T>(rows: seq<Row<K, C, T>>, key: K)
    ensures GroupHasKey(Runs(rows), key) <==> HasKey(rows, key)
  {
    if rows != [] {
      var gs, all := Runs(rows[1..]), Runs(rows);
      RunsHaveKeys(rows[1..], key);
      assert HasKey(rows, key) <==> rows[0].key == key || HasKey(rows[1..], key) by {
        assert forall i :: 0 < i < |rows| ==> rows[i] == rows[1..][i - 1];
        if i :| 0 <= i < |rows[1..]| && rows[1..][i].key == key { assert rows[i + 1].key == key; }
      }
      assert GroupHasKey(all, key) <==> rows[0].key == key || GroupHasKey(gs, key) by {
        assert all[0].key == rows[0].key;
        if i :| 0 <= i < |gs| && gs[i].key == key {
          if |all| == |gs| { assert all[i].key == key; } else { assert all[i + 1].key == key; }
        }
      }
    }
  }

  /** Each key is reported once exactly when its rows stand together, as the catalog's ordering makes them. */
  lemma {:induction false} KeysOnceIffClustered<K, C, T>(rows: seq<Row<K, C, T>>)
    ensures KeysDistinct(Runs(rows)) <==> Clustered(rows)
  {
    if rows != [] {
      var rest := rows[1..];
      var gs, all := Runs(rest), Runs(rows);
      KeysOnceIffClustered(rest);
      RunsHaveKeys(rest, rows[0].key);
      ClusteredStep(rows);
      DistinctStep(rows);
    }
  }

  lemma ClusteredStep<K, C, T>(rows: seq<Row<K, C, T>>)
    requires rows != []
    ensures Clustered(rows) <==>
      Clustered(rows[1..]) && (HasKey(rows[1..], rows[0].key) ==> rows[1].key == rows[0].key)
  {
    var rest := rows[1..];
    assert forall i :: 0 < i < |rows| ==> rows[i] == rest[i - 1];
    if Clustered(rows) {
      assert forall i :: 0 <= i < |rest| ==> rest[i] == rows[i + 1];
      if k :| 0 <= k < |rest| && rest[k].key == rows[0].key {
        assert k > 0 ==> rows[1].key == rows[0].key by { assert rows[k + 1].key == rows[0].key; }
      }
    }
    if Clustered(rest) && (HasKey(rest, rows[0].key) ==> rows[1].key == rows[0].key) {
      forall i, j, k | 0 <= i < j < k < |rows| && rows[i].key == rows[k].key ensures rows[j].key == rows[i].key {
        if i == 0 {
          assert rest[k - 1].key == rows[0].key;
          assert rest[0].key == rows[0].key;
          if j > 1 { assert rest[j - 1].key == rest[0].key; }
        } else {
          assert rest[i - 1].key == rest[k - 1].key && rest[j - 1].key == rest[i - 1].key;
        }
      }
    }
  }

  lemma DistinctInFront<K, C, T>(g: Group<K, C, T>, gs: seq<Group<K, C, T>>)
    ensures KeysDistinct([g] + gs) <==> KeysDistinct(gs) && !GroupHasKey(gs, g.key)
  {
    var all := [g] + gs;
    assert forall i :: 0 < i < |all| ==> all[i] == gs[i - 1];
    if KeysDistinct(all) {
      assert all[1..] == gs;
      forall i, j | 0 <= i < j < |gs| ensures gs[i].key != gs[j].key { assert all[i + 1].key != all[j + 1].key; }
      forall i | 0 <= i < |gs| ensures gs[i].key != g.key { assert all[0].key != all[i + 1].key; }
    }
  }

  lemma DistinctStep<K, C, T>(rows: seq<Row<K, C, T>>)
    requires rows != []
    ensures KeysDistinct(Runs(rows)) <==>
      && KeysDistinct(Runs(rows[1..]))
      && (GroupHasKey(Runs(rows[1..]), rows[0].key) ==> rows[1].key == rows[0].key)
  {
    var gs, all := Runs(rows[1..]), Runs(rows);
    if gs != [] && gs[0].key == rows[0].key {
      assert rows[1..][0] == rows[1];
      assert |all| == |gs| && forall i :: 0 <= i < |gs| ==> all[i].key == gs[i].key;
    } else {
      DistinctInFront(Group(rows[0].key, [rows[0].member], rows[0].extra), gs);
      if |rows| > 1 { assert gs[0].key == rows[1].key; }
    }
  }

  lemma {:induction false} RunsHoldMembers<K, C, T>(rows: seq<Row<K, C, T>>, key: K)
    ensures MembersIn(Runs(rows), key) == MembersOf(rows, key)
  {
    if rows != [] {
      var gs, all := Runs(rows[1..]), Runs(rows);
      RunsHoldMembers(rows[1..], key);
      if gs != [] && gs[0].key == rows[0].key {
        assert all[1..] == gs[1..];
      } else {
        assert all[1..] == gs;
      }
    }
  }

  lemma {:induction false} NoSuchKey<K, C, T>(gs: seq<Group<K, C, T>>, key: K)
    requires forall i :: 0 <= i < |gs| ==> gs[i].key != key
    ensures MembersIn(gs, key) == []
  {
    if gs != [] { NoSuchKey(gs[1..], key); }
  }

  lemma {:induction false} OneGroup<K, C, T>(gs: seq<Group<K, C, T>>, i: nat)
    requires KeysDistinct(gs) && i < |gs|
    ensures MembersIn(gs, gs[i].key) == gs[i].members
  {
    if i == 0 {
      NoSuchKey(gs[1..], gs[0].key);
    } else {
      OneGroup(gs[1..], i - 1);
    }
  }

  /** On ordered rows a group holds every column of its key, in order. */
  lemma GroupIsComplete<K, C, T>(rows: seq<Row<K, C, T>>, i: nat)
    requires Clustered(rows) && i < |Runs(rows)|
    ensures Runs(rows)[i].members == MembersOf(rows, Runs(rows)[i].key)
  {
    KeysOnceIffClustered(rows);
    RunsHoldMembers(rows, Runs(rows)[i].key);
    OneGroup(Runs(rows), i);
  }
}
