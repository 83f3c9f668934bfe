/** `recur_dictify`: a table of string columns grouped, column by column,
    into a nested map. The last column ends up in the leaves. */
module Utilities {
  import opened Seqs

  /** The result of grouping. A one-row, one-column table gives its single
      value (`Leaf`); any other one-column table gives its column as an array
      (`Values`); a wider table gives a map from the distinct first-column
      values, in the ascending order pandas' groupby produces, to the grouping
      of the remaining columns. */
  datatype Tree =
    | Leaf(value: string)
    | Values(items: seq<string>)
    | Node(keys: seq<string>, children: map<string, Tree>)

  type Table = seq<seq<string>>

  /** Every row has exactly `n` columns. */
  predicate Rect(rows: Table, n: nat) {
    Widths(rows, n)
  }

  predicate Widths(rows: Table, n: nat) {
    rows == [] || (|rows[0]| == n && Widths(rows[1..], n))
  }

  lemma {:induction false} RectAt(rows: Table, n: nat, i: nat)
    requires Rect(rows, n) && i < |rows|
    ensures |rows[i]| == n
  {
    if i > 0 {
      RectAt(rows[1..], n, i - 1);
    }
  }

  lemma RectMember(rows: Table, n: nat, row: seq<string>)
    requires Rect(rows, n) && row in rows
    ensures |row| == n
  {
    var i :| 0 <= i < |rows| && rows[i] == row;
    RectAt(rows, n, i);
  }

  lemma {:induction false} RectAll(rows: Table, n: nat)
    requires forall row :: row in rows ==> |row| == n
    ensures Rect(rows, n)
  {
    if rows != [] {
      assert rows[0] in rows;
      assert forall row :: row in rows[1..] ==> row in rows;
      RectAll(rows[1..], n);
    }
  }

  // ---------------------------------------------------------------------------
  // String order
  // ---------------------------------------------------------------------------

  /** Python's `<` on strings: code point by code point, a proper prefix first. */
  predicate StrLt(a: string, b: string) {
    if a == [] then b != []
    else if b == [] then false
    else if a[0] != b[0] then a[0] < b[0]
    else StrLt(a[1..], b[1..])
  }

  lemma {:induction false} StrLtIrreflexive(a: string)
    ensures !StrLt(a, a)
  {
    if a != [] {
      StrLtIrreflexive(a[1..]);
    }
  }

  lemma {:induction false} StrLtTransitive(a: string, b: string, c: string)
    requires StrLt(a, b) && StrLt(b, c)
    ensures StrLt(a, c)
  {
    if a != [] && b != [] && c != [] && a[0] == b[0] == c[0] {
      StrLtTransitive(a[1..], b[1..], c[1..]);
    }
  }

  lemma {:induction false} StrLtTotal(a: string, b: string)
    requires a != b
    ensures StrLt(a, b) || StrLt(b, a)
  {
    if a != [] && b != [] && a[0] == b[0] {
      assert a == [a[0]] + a[1..] && b == [b[0]] + b[1..];
      StrLtTotal(a[1..], b[1..]);
    }
  }

  /** Strictly ascending, hence without duplicates. */
  predicate Sorted(s: seq<string>) {
    forall i, j :: 0 <= i < j < |s| ==> StrLt(s[i], s[j])
  }

  /** `x` placed into an ascending sequence, unless it is already there. */
  function Insert(x: string, s: seq<string>): (r: seq<string>)
    ensures forall y :: y in r <==> y == x || y in s
  {
    if s == [] then [x]
    else if x == s[0] then s
    else if StrLt(x, s[0]) then [x] + s
    else
      var rest := Insert(x, s[1..]);
      assert forall y :: y in s <==> y == s[0] || y in s[1..];
      [s[0]] + rest
  }

  lemma {:induction false} InsertSorted(x: string, s: seq<string>)
    requires Sorted(s)
    ensures Sorted(Insert(x, s))
  {
    if s != [] && x != s[0] {
      if StrLt(x, s[0]) {
        forall j | 0 < j < |s|
          ensures StrLt(x, s[j])
        {
          StrLtTransitive(x, s[0], s[j]);
        }
      } else {
        StrLtTotal(x, s[0]);
        InsertSorted(x, s[1..]);
        var rest := Insert(x, s[1..]);
        forall j | 0 <= j < |rest|
          ensures StrLt(s[0], rest[j])
        {
          assert rest[j] in rest;
          if rest[j] != x {
            var m :| 0 <= m < |s[1..]| && s[1..][m] == rest[j];
            assert s[m + 1] == rest[j];
          }
        }
      }
    }
  }

  /** The distinct elements of `s`, ascending: the group keys. */
  function SortedKeys(s: seq<string>): (r: seq<string>)
    ensures forall y :: y in r <==> y in s
  {
    if s == [] then []
    else
      var r := Insert(s[|s| - 1], SortedKeys(s[..|s| - 1]));
      assert forall y :: y in s <==> y in s[..|s| - 1] || y == s[|s| - 1];
      r
  }

  lemma {:induction false} SortedKeysSorted(s: seq<string>)
    ensures Sorted(SortedKeys(s))
  {
    if s != [] {
      SortedKeysSorted(s[..|s| - 1]);
      InsertSorted(s[|s| - 1], SortedKeys(s[..|s| - 1]));
    }
  }

  lemma SortedDistinct(s: seq<string>)
    requires Sorted(s)
    ensures Distinct(s)
  {
    forall i, j | 0 <= i < j < |s|
      ensures s[i] != s[j]
    {
      if s[i] == s[j] {
        StrLtIrreflexive(s[i]);
      }
    }
  }

  // ---------------------------------------------------------------------------
  // Grouping
  // ---------------------------------------------------------------------------

  /** The first column. */
  function Firsts(rows: Table, n: nat): (r: seq<string>)
    requires n >= 1 && Rect(rows, n)
    ensures |r| == |rows|
  {
    if rows == [] then [] else [rows[0][0]] + Firsts(rows[1..], n)
  }

  lemma {:induction false} FirstsAt(rows: Table, n: nat, i: nat)
    requires n >= 1 && Rect(rows, n) && i < |rows|
    ensures |rows[i]| == n && Firsts(rows, n)[i] == rows[i][0]
  {
    if i > 0 {
      FirstsAt(rows[1..], n, i - 1);
    }
  }

  /** The rows whose first column is `k`, with that column dropped, in order. */
  function Group(rows: Table, n: nat, k: string): (r: Table)
    requires n >= 1 && Rect(rows, n)
    ensures Rect(r, n - 1)
  {
    if rows == [] then []
    else
      var rest := Group(rows[1..], n, k);
      if rows[0][0] == k then [rows[0][1..]] + rest else rest
  }

  lemma {:induction false} GroupMember(rows: Table, n: nat, k: string, x: seq<string>)
    requires n >= 1 && Rect(rows, n)
    ensures x in Group(rows, n, k) <==> [k] + x in rows
  {
    if rows != [] {
      GroupMember(rows[1..], n, k, x);
      assert rows[0] == [rows[0][0]] + rows[0][1..];
      assert [k] + x in rows <==> [k] + x == rows[0] || [k] + x in rows[1..];
      assert ([k] + x)[1..] == x;
    }
  }

  /** `recur_dictify` applied to a table with `n` columns. */
  function Dictify(rows: Table, n: nat): (t: Tree)
    requires n >= 1 && Rect(rows, n)
    ensures n >= 2 <==> t.Node?
    decreases n, 1, 0
  {
    if n == 1 then
      if |rows| == 1 then Leaf(rows[0][0]) else Values(Firsts(rows, n))
    else
      var keys := SortedKeys(Firsts(rows, n));
      Node(keys, Grouped(rows, n, keys))
  }

  /** The map from each of `keys` to the grouping of its rows. */
  function Grouped(rows: Table, n: nat, keys: seq<string>): (m: map<string, Tree>)
    requires n >= 2 && Rect(rows, n)
    ensures forall k :: k in m <==> k in keys
    decreases n, 0, |keys|
  {
    if keys == [] then map[]
    else Grouped(rows, n, keys[1..])[keys[0] := Dictify(Below(rows, n, keys[0]), n - 1)]
  }

  lemma {:induction false} GroupedAt(rows: Table, n: nat, keys: seq<string>, k: string)
    requires n >= 2 && Rect(rows, n) && k in keys
    ensures Grouped(rows, n, keys)[k] == Dictify(Below(rows, n, k), n - 1)
  {
    if keys[0] != k {
      GroupedAt(rows, n, keys[1..], k);
    }
  }

  /** A map's entry is the grouping of the rows below its key. */
  lemma DictifyChild(rows: Table, n: nat, k: string)
    requires n >= 2 && Rect(rows, n) && k in Dictify(rows, n).children
    ensures Dictify(rows, n).children[k] == Dictify(Below(rows, n, k), n - 1)
  {
    GroupedAt(rows, n, SortedKeys(Firsts(rows, n)), k);
  }

  /** The keys of the top map are the distinct values of the first column, ascending. */
  lemma DictifyKeys(rows: Table, n: nat)
    requires n >= 2 && Rect(rows, n)
    ensures Dictify(rows, n).keys == SortedKeys(Firsts(rows, n))
    ensures forall k :: k in Dictify(rows, n).children <==> k in Firsts(rows, n)
  {
  }

  /** The rows below key `k` as the grouping sees them: the group with its
      first column dropped and its duplicate rows removed. */
  function Below(rows: Table, n: nat, k: string): (r: Table)
    requires n >= 1 && Rect(rows, n)
    ensures Rect(r, n - 1)
  {
    DedupRect(Group(rows, n, k), n - 1);
    Dedup(Group(rows, n, k))
  }

  lemma DedupRect(rows: Table, n: nat)
    requires Rect(rows, n)
    ensures Rect(Dedup(rows), n)
  {
    forall row | row in Dedup(rows)
      ensures |row| == n
    {
      RectMember(rows, n, row);
    }
    RectAll(Dedup(rows), n);
  }

  lemma BelowRect(rows: Table, n: nat, k: string)
    requires n >= 1 && Rect(rows, n)
    ensures Rect(Below(rows, n, k), n - 1)
  {
  }

  lemma BelowMember(rows: Table, n: nat, k: string, x: seq<string>)
    requires n >= 1 && Rect(rows, n)
    ensures x in Below(rows, n, k) <==> [k] + x in rows
  {
    GroupMember(rows, n, k, x);
  }

  // ---------------------------------------------------------------------------
  // Shape of the result
  // ---------------------------------------------------------------------------

  /** Every root-to-leaf walk passes through exactly `d` maps. */
  predicate HasDepth(t: Tree, d: nat) {
    if d == 0 then !t.Node?
    else t.Node? && forall k :: k in t.children ==> HasDepth(t.children[k], d - 1)
  }

  /** Map keys are listed once each, ascending, and match the map's domain. */
  predicate WellFormed(t: Tree) {
    match t
    case Node(keys, children) =>
      Sorted(keys) && (forall k :: k in keys ==> k in children) && (forall k :: k in children ==> k in keys)
      && forall k :: k in children ==> WellFormed(children[k])
    case _ => true
  }

  /** Every listed key leads somewhere: the part of being well formed that
      walking down the first keys needs. */
  predicate Navigable(t: Tree) {
    match t
    case Node(keys, children) =>
      (forall k :: k in keys ==> k in children) && forall k :: k in children ==> Navigable(children[k])
    case _ => true
  }

  lemma {:induction false} WellFormedNavigable(t: Tree)
    requires WellFormed(t)
    ensures Navigable(t)
  {
    match t
    case Node(keys, children) =>
      forall k | k in children ensures Navigable(children[k]) {
        WellFormedNavigable(children[k]);
      }
    case _ =>
  }

  /** No empty map and no empty array anywhere. */
  predicate NonEmpty(t: Tree) {
    match t
    case Leaf(_) => true
    case Values(items) => items != []
    case Node(keys, children) => keys != [] && forall k :: k in children ==> NonEmpty(children[k])
  }

  /** Every array in the tree lists each value once. */
  predicate LeavesDistinct(t: Tree) {
    match t
    case Leaf(_) => true
    case Values(items) => Distinct(items)
    case Node(_, children) => forall k :: k in children ==> LeavesDistinct(children[k])
  }

  /** `path` leads from the root through the maps to a leaf holding its last element. */
  predicate Contains(t: Tree, path: seq<string>) {
    Walk(t, path)
  }

  predicate Walk(t: Tree, path: seq<string>)
    decreases path
  {
    if path == [] then false
    else match t
      case Leaf(v) => path == [v]
      case Values(items) => |path| == 1 && path[0] in items
      case Node(_, children) => path[0] in children && Walk(children[path[0]], path[1..])
  }

  /** Walking one map level: `path` is in `t` exactly when its tail is in the child at its head. */
  lemma PathStep(t: Tree, child: Tree, path: seq<string>, inChild: bool, inRows: bool)
    requires t.Node? && path != [] && path[0] in t.children && t.children[path[0]] == child
    requires Contains(child, path[1..]) <==> inChild
    requires inChild <==> inRows
    ensures Contains(t, path) <==> inRows
  {
  }

  lemma PathMiss(t: Tree, path: seq<string>)
    requires t.Node? && path != [] && path[0] !in t.children
    ensures !Contains(t, path)
  {
  }

  // ---------------------------------------------------------------------------
  // Properties
  // ---------------------------------------------------------------------------

  lemma FirstOfRow(rows: Table, n: nat, row: seq<string>)
    requires n >= 1 && Rect(rows, n) && row in rows
    ensures |row| == n && row[0] in Firsts(rows, n)
  {
    var i :| 0 <= i < |rows| && rows[i] == row;
    FirstsAt(rows, n, i);
  }

  lemma RowOfFirst(rows: Table, n: nat, k: string) returns (row: seq<string>)
    requires n >= 1 && Rect(rows, n) && k in Firsts(rows, n)
    ensures row in rows && |row| == n && row[0] == k
  {
    var f := Firsts(rows, n);
    var i :| 0 <= i < |f| && f[i] == k;
    FirstsAt(rows, n, i);
    row := rows[i];
  }

  /** The root-to-leaf paths of the grouping are exactly the rows of the table. */
  lemma {:induction false} DictifyPaths(rows: Table, n: nat, path: seq<string>)
    requires n >= 1 && Rect(rows, n)
    ensures Contains(Dictify(rows, n), path) <==> path in rows
    decreases n, 2
  {
    if path in rows {
      RectMember(rows, n, path);
    }
    if path == [] {
    } else if n == 1 {
      ColumnPaths(rows, path);
    } else {
      NodePaths(rows, n, path);
    }
  }

  /** A one-column table gives its single value, or else its column as an array. */
  lemma DictifyColumn(rows: Table)
    requires Rect(rows, 1)
    ensures |rows| == 1 ==> Dictify(rows, 1).Leaf? && [Dictify(rows, 1).value] == rows[0]
    ensures |rows| != 1 ==> Dictify(rows, 1).Values? && |Dictify(rows, 1).items| == |rows|
    ensures |rows| != 1 ==> forall i :: 0 <= i < |rows| ==> [Dictify(rows, 1).items[i]] == rows[i]
  {
    forall i | 0 <= i < |rows|
      ensures [Firsts(rows, 1)[i]] == rows[i]
    {
      FirstsAt(rows, 1, i);
      assert rows[i] == [rows[i][0]];
    }
  }

  lemma ColumnPaths(rows: Table, path: seq<string>)
    requires Rect(rows, 1) && path != []
    ensures Contains(Dictify(rows, 1), path) <==> path in rows
  {
    var t := Dictify(rows, 1);
    DictifyColumn(rows);
    if |rows| == 1 {
    } else {
      if Contains(t, path) {
        var i :| 0 <= i < |t.items| && t.items[i] == path[0];
        assert rows[i] == path;
      }
      if path in rows {
        var i :| 0 <= i < |rows| && rows[i] == path;
        assert [t.items[i]] == path;
      }
    }
  }

  lemma {:induction false} NodePaths(rows: Table, n: nat, path: seq<string>)
    requires n >= 2 && Rect(rows, n) && path != []
    ensures Contains(Dictify(rows, n), path) <==> path in rows
    decreases n, 1, 1
  {
    if path[0] in Firsts(rows, n) {
      KeyPaths(rows, n, path);
    } else {
      DictifyKeys(rows, n);
      PathMiss(Dictify(rows, n), path);
      if path in rows {
        FirstOfRow(rows, n, path);
      }
    }
  }

  lemma {:induction false} KeyPaths(rows: Table, n: nat, path: seq<string>)
    requires n >= 2 && Rect(rows, n) && path != [] && path[0] in Firsts(rows, n)
    ensures Contains(Dictify(rows, n), path) <==> path in rows
    decreases n, 1, 0
  {
    var k := path[0];
    DictifyKeys(rows, n);
    ChildPaths(rows, n, k, path[1..]);
    assert path == [k] + path[1..];
    PathStep(Dictify(rows, n), Dictify(rows, n).children[k], path, [k] + path[1..] in rows, path in rows);
  }

  lemma {:induction false} ChildPaths(rows: Table, n: nat, k: string, tail: seq<string>)
    requires n >= 2 && Rect(rows, n) && k in Dictify(rows, n).children
    ensures Contains(Dictify(rows, n).children[k], tail) <==> [k] + tail in rows
    decreases n, 0
  {
    DictifyChild(rows, n, k);
    BelowRect(rows, n, k);
    DictifyPaths(Below(rows, n, k), n - 1, tail);
    BelowMember(rows, n, k, tail);
  }

  /** The grouping nests exactly one map per column but the last, and every
      map lists its keys once each, ascending. */
  lemma {:induction false} DictifyShape(rows: Table, n: nat)
    requires n >= 1 && Rect(rows, n)
    ensures HasDepth(Dictify(rows, n), n - 1) && WellFormed(Dictify(rows, n))
    decreases n, 1
  {
    if n >= 2 {
      var t := Dictify(rows, n);
      DictifyKeys(rows, n);
      SortedKeysSorted(Firsts(rows, n));
      forall k | k in t.children
        ensures HasDepth(t.children[k], n - 2) && WellFormed(t.children[k])
      {
        DictifyChild(rows, n, k);
        ChildShape(rows, n, k);
      }
    }
  }

  lemma {:induction false} ChildShape(rows: Table, n: nat, k: string)
    requires n >= 2 && Rect(rows, n)
    ensures HasDepth(Dictify(Below(rows, n, k), n - 1), n - 2)
    ensures WellFormed(Dictify(Below(rows, n, k), n - 1))
    decreases n, 0
  {
    BelowRect(rows, n, k);
    DictifyShape(Below(rows, n, k), n - 1);
  }

  /** A non-empty table has no empty map or array anywhere in its grouping. */
  lemma {:induction false} DictifyNonEmpty(rows: Table, n: nat)
    requires n >= 1 && Rect(rows, n) && rows != []
    ensures NonEmpty(Dictify(rows, n))
    decreases n, 1
  {
    if n >= 2 {
      var t := Dictify(rows, n);
      DictifyKeys(rows, n);
      assert Firsts(rows, n)[0] in Firsts(rows, n);
      forall k | k in t.children
        ensures NonEmpty(t.children[k])
      {
        DictifyChild(rows, n, k);
        ChildNonEmpty(rows, n, k);
      }
    }
  }

  lemma {:induction false} ChildNonEmpty(rows: Table, n: nat, k: string)
    requires n >= 2 && Rect(rows, n) && k in Firsts(rows, n)
    ensures NonEmpty(Dictify(Below(rows, n, k), n - 1))
    decreases n, 0
  {
    BelowNonEmpty(rows, n, k);
    BelowRect(rows, n, k);
    DictifyNonEmpty(Below(rows, n, k), n - 1);
  }

  /** Every value of the first column has at least one row below it. */
  lemma BelowNonEmpty(rows: Table, n: nat, k: string)
    requires n >= 1 && Rect(rows, n) && k in Firsts(rows, n)
    ensures Below(rows, n, k) != []
  {
    var row := RowOfFirst(rows, n, k);
    assert row == [k] + row[1..];
    BelowMember(rows, n, k, row[1..]);
  }

  /** Below the top level every array is duplicate-free, because each group
      is de-duplicated before it is grouped further; at the top level it is
      when the table's rows are. */
  lemma {:induction false} DictifyLeavesDistinct(rows: Table, n: nat)
    requires n >= 1 && Rect(rows, n)
    requires n == 1 ==> Distinct(rows)
    ensures LeavesDistinct(Dictify(rows, n))
    decreases n, 1
  {
    var t := Dictify(rows, n);
    if n == 1 {
      DictifyColumn(rows);
      if |rows| != 1 {
        forall i, j | 0 <= i < j < |t.items|
          ensures t.items[i] != t.items[j]
        {
          assert [t.items[i]] == rows[i] && [t.items[j]] == rows[j];
        }
      }
    } else {
      forall k | k in t.children
        ensures LeavesDistinct(t.children[k])
      {
        DictifyChild(rows, n, k);
        ChildLeavesDistinct(rows, n, k);
      }
    }
  }

  lemma {:induction false} ChildLeavesDistinct(rows: Table, n: nat, k: string)
    requires n >= 2 && Rect(rows, n)
    ensures LeavesDistinct(Dictify(Below(rows, n, k), n - 1))
    decreases n, 0
  {
    DedupDistinct(Group(rows, n, k));
    BelowRect(rows, n, k);
    DictifyLeavesDistinct(Below(rows, n, k), n - 1);
  }

  /** Following the first key of every map down to the first leaf value. */
  function FirstPath(t: Tree): (path: seq<string>)
    requires Navigable(t) && NonEmpty(t)
    ensures Contains(t, path)
    ensures t.Node? ==> path[0] == t.keys[0]
  {
    match t
    case Leaf(v) => [v]
    case Values(items) => [items[0]]
    case Node(keys, children) =>
      assert keys[0] in keys;
      [keys[0]] + FirstPath(children[keys[0]])
  }

  /** The first path starts at the least key of the top map. */
  lemma FirstPathLeast(t: Tree, k: string)
    requires WellFormed(t) && NonEmpty(t) && t.Node? && k in t.children
    ensures Navigable(t)
    ensures FirstPath(t)[0] == k || StrLt(FirstPath(t)[0], k)
  {
    WellFormedNavigable(t);
    var j :| 0 <= j < |t.keys| && t.keys[j] == k;
  }
}
