/** The dashboard callbacks: the cascade of selector options over the
    grouped pathway tree, the hiding of not-applicable selectors, the query
    that turns a selection into raster paths, and the light/dark switch. */
module App {
  import opened Wrappers
  import opened Seqs
  import opened Text
  import opened Utilities
  import Keys
  import Catalogue

  /** The exceptions a callback can raise: a key missing from a map, a map
      lookup on something that is not a map, `options[0]` of no options. */
  datatype Failure = KeyError(key: string) | NotAMap | IndexError

  /** A dropdown option: its label (`text`) and its value. */
  datatype Opt = Opt(text: string, value: string)

  /** The columns grouped into the option tree: technology, subtype, feature,
      carbon capture, cooling type and capacity factor. */
  const PathwayColumns: nat := 6

  // ---------------------------------------------------------------------
  // Option cascade
  // ---------------------------------------------------------------------

  /** `all_options[path[0]][path[1]]...`. */
  function Lookup(t: Tree, path: seq<string>): (r: Result<Tree, Failure>)
    decreases path
  {
    if path == [] then Ok(t)
    else match t
      case Node(_, children) =>
        if path[0] in children then Lookup(children[path[0]], path[1..]) else Err(KeyError(path[0]))
      case _ => Err(NotAMap)
  }

  /** Looking up a prefix and walking on from there is walking the whole path. */
  lemma {:induction false} LookupWalk(t: Tree, path: seq<string>, tail: seq<string>)
    requires tail != []
    ensures Contains(t, path + tail) <==> Lookup(t, path).Ok? && Contains(Lookup(t, path).value, tail)
    decreases path
  {
    if path == [] {
      assert path + tail == tail;
    } else {
      assert (path + tail)[0] == path[0] && (path + tail)[1..] == path[1..] + tail;
      assert |path + tail| >= 2;
      match t
      case Node(_, children) =>
        if path[0] in children {
          LookupWalk(children[path[0]], path[1..], tail);
        }
      case _ =>
    }
  }

  /** Appending one key to a lookup path looks one map deeper. */
  lemma {:induction false} LookupSnoc(t: Tree, path: seq<string>, k: string)
    requires Lookup(t, path).Ok? && Lookup(t, path).value.Node? && k in Lookup(t, path).value.children
    ensures Lookup(t, path + [k]) == Ok(Lookup(t, path).value.children[k])
    decreases path
  {
    if path != [] {
      assert (path + [k])[0] == path[0] && (path + [k])[1..] == path[1..] + [k];
      LookupSnoc(t.children[path[0]], path[1..], k);
    }
  }

  /** The subtree found by a lookup keeps the shape of the tree it came from. */
  lemma {:induction false} LookupShape(t: Tree, path: seq<string>, d: nat)
    requires Navigable(t) && NonEmpty(t) && HasDepth(t, d) && Lookup(t, path).Ok?
    ensures |path| <= d
    ensures Navigable(Lookup(t, path).value) && NonEmpty(Lookup(t, path).value)
    ensures HasDepth(Lookup(t, path).value, d - |path|)
    decreases path
  {
    if path != [] {
      LookupShape(t.children[path[0]], path[1..], d - 1);
    }
  }

  /** What a Python `for` over a tree value yields: a map its keys (in the
      order they were inserted), a list its elements, a string its characters. */
  function Iterate(t: Tree): (items: seq<string>)
    ensures t.Leaf? ==> |items| == |t.value| && forall i :: 0 <= i < |items| ==> items[i] == [t.value[i]]
  {
    match t
    case Node(keys, _) => keys
    case Values(items) => items
    case Leaf(v) => seq(|v|, i requires 0 <= i < |v| => [v[i]])
  }

  /** One option per value, with the value as label. */
  function AsOptions(values: seq<string>): (r: seq<Opt>)
    ensures |r| == |values|
    ensures forall i :: 0 <= i < |r| ==> r[i] == Opt(values[i], values[i])
  {
    seq(|values|, i requires 0 <= i < |values| => Opt(values[i], values[i]))
  }

  /** The options of the subtype, feature, carbon-capture and cooling selectors:
      what iterating the subtree at the selected prefix yields. */
  function LevelOptions(t: Tree, path: seq<string>): (r: Result<seq<Opt>, Failure>)
    ensures r.Ok? <==> Lookup(t, path).Ok?
    ensures r.Ok? ==> forall o :: o in r.value ==> o.text == o.value
    ensures r.Ok? && Lookup(t, path).value.Node? ==>
      forall v :: Opt(v, v) in r.value <==> v in Lookup(t, path).value.keys
  {
    var sub :- Lookup(t, path);
    var opts := AsOptions(Iterate(sub));
    assert forall v :: Opt(v, v) in opts <==> v in Iterate(sub) by {
      forall v ensures Opt(v, v) in opts <==> v in Iterate(sub) {
        if v in Iterate(sub) {
          var i :| 0 <= i < |Iterate(sub)| && Iterate(sub)[i] == v;
          assert opts[i] == Opt(v, v);
        }
      }
    }
    Ok(opts)
  }

  /** The options of the capacity-factor selector: a single string becomes
      one option instead of one option per character. */
  function CapacityFactorOptions(t: Tree, path: seq<string>): (r: Result<seq<Opt>, Failure>)
    ensures r.Ok? <==> Lookup(t, path).Ok?
    ensures r.Ok? && Lookup(t, path).value.Leaf? ==>
      r.value == [Opt(Lookup(t, path).value.value, Lookup(t, path).value.value)]
    ensures r.Ok? && Lookup(t, path).value.Values? ==>
      |r.value| == |Lookup(t, path).value.items| &&
      forall i :: 0 <= i < |r.value| ==> r.value[i].text == r.value[i].value == Lookup(t, path).value.items[i]
  {
    var sub :- Lookup(t, path);
    if sub.Leaf? then Ok(AsOptions([sub.value])) else Ok(AsOptions(Iterate(sub)))
  }

  /** `available_options[0]['value']`. */
  function SelectFirst(options: seq<Opt>): (r: Result<string, Failure>)
    ensures r.Ok? <==> options != []
    ensures r.Ok? ==> r.value == options[0].value
    ensures !r.Ok? ==> r == Err(IndexError)
  {
    if options == [] then Err(IndexError) else Ok(options[0].value)
  }

  /** The callbacks from the selector after `prefix` on: each selector takes
      the first of its options, and its value selects the next selector's
      options; the last (capacity-factor) selector treats a string as one option. */
  function Defaults(t: Tree, prefix: seq<string>, remaining: nat): (r: Result<seq<string>, Failure>)
    requires remaining >= 1
    ensures r.Ok? ==> |r.value| == |prefix| + remaining && r.value[..|prefix|] == prefix
    decreases remaining
  {
    if remaining == 1 then
      var options :- CapacityFactorOptions(t, prefix);
      var v :- SelectFirst(options);
      Ok(prefix + [v])
    else
      var options :- LevelOptions(t, prefix);
      var v :- SelectFirst(options);
      var r :- Defaults(t, prefix + [v], remaining - 1);
      assert r[..|prefix|] == (r[..|prefix| + 1])[..|prefix|];
      Ok(r)
  }

  /** The selection the callbacks settle on once a technology is picked. */
  function DefaultSelection(t: Tree, tech: string): (r: Result<seq<string>, Failure>)
    ensures r.Ok? ==> |r.value| == PathwayColumns && r.value[0] == tech
  {
    Defaults(t, [tech], PathwayColumns - 1)
  }

  /** At a map, taking the first option descends to the first key's child,
      which is where the first path of the subtree goes. */
  lemma FirstStep(t: Tree, path: seq<string>)
    requires Lookup(t, path).Ok? && Lookup(t, path).value.Node?
    requires Navigable(Lookup(t, path).value) && NonEmpty(Lookup(t, path).value)
    ensures var sub := Lookup(t, path).value;
      LevelOptions(t, path).Ok? && SelectFirst(LevelOptions(t, path).value) == Ok(sub.keys[0])
      && sub.keys[0] in sub.children
      && Lookup(t, path + [sub.keys[0]]) == Ok(sub.children[sub.keys[0]])
      && FirstPath(sub) == [sub.keys[0]] + FirstPath(sub.children[sub.keys[0]])
  {
    var sub := Lookup(t, path).value;
    assert sub.keys[0] in sub.keys;
    LookupSnoc(t, path, sub.keys[0]);
  }

  /** At a leaf or array, taking the first option gives the first path's only element. */
  lemma LastStep(t: Tree, path: seq<string>)
    requires Lookup(t, path).Ok? && !Lookup(t, path).value.Node?
    requires Navigable(Lookup(t, path).value) && NonEmpty(Lookup(t, path).value)
    ensures CapacityFactorOptions(t, path).Ok?
    ensures SelectFirst(CapacityFactorOptions(t, path).value) == Ok(FirstPath(Lookup(t, path).value)[0])
    ensures |FirstPath(Lookup(t, path).value)| == 1
  {
  }

  /** The subtree at `prefix` exists, has a first path, and is `d` maps deep. */
  predicate Ready(t: Tree, prefix: seq<string>, d: nat) {
    Lookup(t, prefix).Ok? && Navigable(Lookup(t, prefix).value) && NonEmpty(Lookup(t, prefix).value)
    && HasDepth(Lookup(t, prefix).value, d)
  }

  /** Below a prefix whose subtree is a well-formed tree of the right depth,
      the defaults follow the first key of every map down to the first value. */
  lemma {:induction false} DefaultsFirst(t: Tree, prefix: seq<string>, remaining: nat)
    requires remaining >= 1 && Ready(t, prefix, remaining - 1)
    ensures Defaults(t, prefix, remaining) == Ok(prefix + FirstPath(Lookup(t, prefix).value))
    decreases remaining
  {
    if remaining == 1 {
      DefaultsLast(t, prefix);
    } else {
      var k := DefaultsDescend(t, prefix, remaining);
      DefaultsFirst(t, prefix + [k], remaining - 1);
    }
  }

  /** One step of the descent: the first key's child again has the shape
      needed, and the defaults from there decide the defaults from here. */
  lemma DefaultsDescend(t: Tree, prefix: seq<string>, remaining: nat) returns (k: string)
    requires remaining >= 2 && Ready(t, prefix, remaining - 1)
    ensures Ready(t, prefix + [k], remaining - 2)
    ensures Defaults(t, prefix + [k], remaining - 1) == Ok(prefix + [k] + FirstPath(Lookup(t, prefix + [k]).value))
      ==> Defaults(t, prefix, remaining) == Ok(prefix + FirstPath(Lookup(t, prefix).value))
  {
    var sub := Lookup(t, prefix).value;
    k := sub.keys[0];
    FirstDescent(t, prefix);
    var child := sub.children[k];
    SubtreeShape(sub, k, remaining - 1);
    DefaultsStep(t, prefix, remaining);
    Associative(prefix, [k], FirstPath(child));
  }

  lemma SubtreeShape(t: Tree, k: string, d: nat)
    requires t.Node? && k in t.children && Navigable(t) && NonEmpty(t) && HasDepth(t, d)
    ensures d >= 1 && Navigable(t.children[k]) && NonEmpty(t.children[k]) && HasDepth(t.children[k], d - 1)
  {
  }

  /** The subtree found by a lookup in a well-formed tree is well formed. */
  lemma {:induction false} LookupWellFormed(t: Tree, path: seq<string>)
    requires WellFormed(t) && Lookup(t, path).Ok?
    ensures WellFormed(Lookup(t, path).value)
    decreases path
  {
    if path != [] {
      LookupWellFormed(t.children[path[0]], path[1..]);
    }
  }

  lemma Associative(a: seq<string>, b: seq<string>, c: seq<string>)
    ensures a + b + c == a + (b + c)
  {
  }

  /** The first path of a map runs through its first key's child. */
  lemma FirstDescent(t: Tree, path: seq<string>)
    requires Lookup(t, path).Ok? && Lookup(t, path).value.Node?
    requires Navigable(Lookup(t, path).value) && NonEmpty(Lookup(t, path).value)
    ensures var sub := Lookup(t, path).value;
      sub.keys[0] in sub.children
      && Lookup(t, path + [sub.keys[0]]) == Ok(sub.children[sub.keys[0]])
      && FirstPath(sub) == [sub.keys[0]] + FirstPath(sub.children[sub.keys[0]])
  {
    FirstStep(t, path);
  }

  /** At a leaf or array, the defaults end with its first value. */
  lemma DefaultsLast(t: Tree, prefix: seq<string>)
    requires Lookup(t, prefix).Ok? && !Lookup(t, prefix).value.Node?
    requires Navigable(Lookup(t, prefix).value) && NonEmpty(Lookup(t, prefix).value)
    ensures Defaults(t, prefix, 1) == Ok(prefix + FirstPath(Lookup(t, prefix).value))
  {
    LastStep(t, prefix);
  }

  /** At a map, the defaults continue from the first key. */
  lemma DefaultsStep(t: Tree, prefix: seq<string>, remaining: nat)
    requires remaining >= 2 && Lookup(t, prefix).Ok? && Lookup(t, prefix).value.Node?
    requires Navigable(Lookup(t, prefix).value) && NonEmpty(Lookup(t, prefix).value)
    ensures Defaults(t, prefix, remaining) == Defaults(t, prefix + [Lookup(t, prefix).value.keys[0]], remaining - 1)
  {
    FirstStep(t, prefix);
  }

  /** On a well-formed five-level tree the defaults follow the first key of
      every map below the chosen technology. */
  lemma DefaultSelectionFirst(t: Tree, tech: string)
    requires Navigable(t) && NonEmpty(t) && HasDepth(t, PathwayColumns - 1) && tech in t.children
    ensures DefaultSelection(t, tech) == Ok([tech] + FirstPath(t.children[tech]))
  {
    LookupShape(t, [tech], PathwayColumns - 1);
    DefaultsFirst(t, [tech], PathwayColumns - 1);
  }

  /** The selector values that appear after picking a technology from the
      table name an existing pathway: a row of the table beginning with it. */
  lemma DefaultSelectionInTable(rows: Table, tech: string)
    requires Rect(rows, PathwayColumns)
    requires tech in Dictify(rows, PathwayColumns).children
    ensures DefaultSelection(Dictify(rows, PathwayColumns), tech).Ok?
    ensures DefaultSelection(Dictify(rows, PathwayColumns), tech).value in rows
  {
    var t := Dictify(rows, PathwayColumns);
    DictifyKeys(rows, PathwayColumns);
    DictifyShape(rows, PathwayColumns);
    DictifyNonEmpty(rows, PathwayColumns);
    WellFormedNavigable(t);
    DefaultSelectionFirst(t, tech);
    var path := [tech] + FirstPath(t.children[tech]);
    assert Contains(t, path) by {
      assert path[0] == tech && path[1..] == FirstPath(t.children[tech]);
    }
    DictifyPaths(rows, PathwayColumns, path);
  }

  /** The options at a selected prefix are exactly the values that follow
      that prefix in some row of the table. */
  lemma {:induction false} OptionsFromTable(rows: Table, path: seq<string>, v: string)
    requires Rect(rows, PathwayColumns) && |path| <= PathwayColumns - 2
    requires LevelOptions(Dictify(rows, PathwayColumns), path).Ok?
    ensures Opt(v, v) in LevelOptions(Dictify(rows, PathwayColumns), path).value
        <==> exists row :: row in rows && path + [v] <= row
  {
    var t := Dictify(rows, PathwayColumns);
    DictifyShape(rows, PathwayColumns);
    var sub := Lookup(t, path).value;
    if Opt(v, v) in LevelOptions(t, path).value {
      OptionFromTable(rows, path, v);
    }
    if exists row :: row in rows && path + [v] <= row {
      var row :| row in rows && path + [v] <= row;
      TableToOption(rows, path, v, row);
    }
  }

  lemma OptionFromTable(rows: Table, path: seq<string>, v: string)
    requires Rect(rows, PathwayColumns) && |path| <= PathwayColumns - 2
    requires LevelOptions(Dictify(rows, PathwayColumns), path).Ok?
    requires Opt(v, v) in LevelOptions(Dictify(rows, PathwayColumns), path).value
    ensures exists row :: row in rows && path + [v] <= row
  {
    var t := Dictify(rows, PathwayColumns);
    DictifyShape(rows, PathwayColumns);
    var sub := Lookup(t, path).value;
    if rows == [] {
      assert false;
    }
    DictifyNonEmpty(rows, PathwayColumns);
    WellFormedNavigable(t);
    LookupShape(t, path, PathwayColumns - 1);
    LookupWellFormed(t, path);
    assert sub.Node?;
    var child := sub.children[v];
    var tail := FirstPath(child);
    assert Contains(sub, [v] + tail) by {
      assert ([v] + tail)[0] == v && ([v] + tail)[1..] == tail;
    }
    LookupWalk(t, path, [v] + tail);
    DictifyPaths(rows, PathwayColumns, path + ([v] + tail));
    var row := path + ([v] + tail);
    assert path + [v] <= row;
  }

  lemma TableToOption(rows: Table, path: seq<string>, v: string, row: seq<string>)
    requires Rect(rows, PathwayColumns) && |path| <= PathwayColumns - 2
    requires LevelOptions(Dictify(rows, PathwayColumns), path).Ok?
    requires row in rows && path + [v] <= row
    ensures Opt(v, v) in LevelOptions(Dictify(rows, PathwayColumns), path).value
  {
    var t := Dictify(rows, PathwayColumns);
    DictifyShape(rows, PathwayColumns);
    DictifyNonEmpty(rows, PathwayColumns);
    RectMember(rows, PathwayColumns, row);
    WellFormedNavigable(t);
    LookupShape(t, path, PathwayColumns - 1);
    LookupWellFormed(t, path);
    var sub := Lookup(t, path).value;
    var tail := row[|path|..];
    assert row == path + tail;
    assert tail != [] && tail[0] == v;
    DictifyPaths(rows, PathwayColumns, row);
    LookupWalk(t, path, tail);
  }

  // ---------------------------------------------------------------------
  // Visibility of the selectors
  // ---------------------------------------------------------------------

  /** A container's style: hidden for the not-applicable value, shown otherwise. */
  function DisplayStyle(value: string): (style: map<string, string>)
    ensures style.Keys == {"display"}
    ensures style["display"] == "none" <==> value == Keys.NotApplicable
    ensures style["display"] == "block" <==> value != Keys.NotApplicable
  {
    if value == Keys.NotApplicable then map["display" := "none"] else map["display" := "block"]
  }

  /** The styles of the feature, carbon-capture, cooling and capacity-factor
      containers: each is hidden exactly when its own value is "--". */
  function ShowHide(feature: string, isCcs: string, cooling: string, capacityFactor: string)
    : (r: (map<string, string>, map<string, string>, map<string, string>, map<string, string>))
    ensures r.0 == DisplayStyle(feature) && r.1 == DisplayStyle(isCcs)
    ensures r.2 == DisplayStyle(cooling) && r.3 == DisplayStyle(capacityFactor)
  {
    (DisplayStyle(feature), DisplayStyle(isCcs), DisplayStyle(cooling), DisplayStyle(capacityFactor))
  }

  /** Changing one selector's value changes only that selector's container. */
  lemma ShowHideIndependent(feature: string, isCcs: string, cooling: string, capacityFactor: string,
                            feature': string)
    ensures ShowHide(feature', isCcs, cooling, capacityFactor).1 == ShowHide(feature, isCcs, cooling, capacityFactor).1
    ensures ShowHide(feature', isCcs, cooling, capacityFactor).2 == ShowHide(feature, isCcs, cooling, capacityFactor).2
    ensures ShowHide(feature', isCcs, cooling, capacityFactor).3 == ShowHide(feature, isCcs, cooling, capacityFactor).3
    ensures ShowHide(feature', isCcs, cooling, capacityFactor).0 == ShowHide(feature, isCcs, cooling, capacityFactor).0
        <==> (feature' == Keys.NotApplicable <==> feature == Keys.NotApplicable)
  {
  }

  // ---------------------------------------------------------------------
  // Map query
  // ---------------------------------------------------------------------

  /** The values of the selectors that drive the map. The year selector holds a number. */
  datatype Selection = Selection(year: nat, ssp: string, tech: string, subtype: string, feature: string,
                                 isCcs: string, coolingType: string, capacityFactor: string)

  /** The query's condition: all eight `ui_` fields equal the selection, the
      year compared as its decimal text. */
  predicate Matches(s: Selection, row: Catalogue.Row) {
    row.uiSsp == s.ssp && row.uiYear == NatToDecimal(s.year) && row.uiTech == s.tech &&
    row.uiSubtype == s.subtype && row.uiFeature == s.feature && row.uiIsCcs == s.isCcs &&
    row.uiCoolingType == s.coolingType && row.uiCapacityFactor == s.capacityFactor
  }

  /** The query's row mask. */
  function Query(s: Selection): Catalogue.Row -> bool {
    row => Matches(s, row)
  }

  /** How many rows before row `k` match the selection. */
  function Rank(table: seq<Catalogue.Row>, s: Selection, k: nat): nat
    requires k <= |table|
  {
    Count(table[..k], Query(s))
  }

  /** The `fpath` column of some rows. */
  function Paths(rows: seq<Catalogue.Row>): (r: seq<string>)
    ensures |r| == |rows| && forall i :: 0 <= i < |rows| ==> r[i] == rows[i].fpath
  {
    seq(|rows|, i requires 0 <= i < |rows| => rows[i].fpath)
  }

  /** `fpaths` lists the paths of the matching rows in table order: the
      matching row with `i` matching rows before it gives path `i`, and every
      path is given by such a row. */
  predicate InTableOrder(table: seq<Catalogue.Row>, s: Selection, fpaths: seq<string>) {
    (forall k :: 0 <= k < |table| && Matches(s, table[k]) ==>
      Rank(table, s, k) < |fpaths| && fpaths[Rank(table, s, k)] == table[k].fpath) &&
    (forall i :: 0 <= i < |fpaths| ==> FromRankedRow(table, s, fpaths, i))
  }

  /** Path `i` is that of the matching row with `i` matching rows before it. */
  predicate FromRankedRow(table: seq<Catalogue.Row>, s: Selection, fpaths: seq<string>, i: nat)
    requires i < |fpaths|
  {
    exists k :: 0 <= k < |table| && Matches(s, table[k]) && Rank(table, s, k) == i && fpaths[i] == table[k].fpath
  }

  /** `fpaths` holds exactly the paths of the matching rows. */
  ghost predicate PathsOfMatches(table: seq<Catalogue.Row>, s: Selection, fpaths: seq<string>) {
    forall p :: p in fpaths <==> exists row :: row in table && Matches(s, row) && row.fpath == p
  }

  /** A matching row's path sits at the row's rank. */
  lemma QueryRowAt(table: seq<Catalogue.Row>, s: Selection, k: nat)
    requires k < |table| && Matches(s, table[k])
    ensures Rank(table, s, k) < |Paths(Kept(table, Query(s)))|
    ensures Paths(Kept(table, Query(s)))[Rank(table, s, k)] == table[k].fpath
  {
    assert Query(s)(table[k]);
    KeptRank(table, Query(s), k);
  }

  /** The path at position `i` is that of the matching row of rank `i`. */
  lemma QueryPathAt(table: seq<Catalogue.Row>, s: Selection, i: nat) returns (k: nat)
    requires i < |Paths(Kept(table, Query(s)))|
    ensures k < |table| && Matches(s, table[k]) && Rank(table, s, k) == i
    ensures Paths(Kept(table, Query(s)))[i] == table[k].fpath
  {
    k := KeptAt(table, Query(s), i);
    assert Query(s)(table[k]);
  }

  /** The selection of matching rows, its paths taken in order, lists them in table order. */
  lemma QueryOrder(table: seq<Catalogue.Row>, s: Selection)
    ensures InTableOrder(table, s, Paths(Kept(table, Query(s))))
  {
    var fpaths := Paths(Kept(table, Query(s)));
    forall k | 0 <= k < |table| && Matches(s, table[k])
      ensures Rank(table, s, k) < |fpaths| && fpaths[Rank(table, s, k)] == table[k].fpath
    {
      QueryRowAt(table, s, k);
    }
    forall i | 0 <= i < |fpaths|
      ensures FromRankedRow(table, s, fpaths, i)
    {
      var k := QueryPathAt(table, s, i);
    }
  }

  /** Listing the matching rows' paths in table order lists exactly their paths. */
  lemma OrderedMembers(table: seq<Catalogue.Row>, s: Selection, fpaths: seq<string>)
    requires InTableOrder(table, s, fpaths)
    ensures PathsOfMatches(table, s, fpaths)
  {
    forall p ensures p in fpaths <==> exists row :: row in table && Matches(s, row) && row.fpath == p {
      if p in fpaths {
        var i :| 0 <= i < |fpaths| && fpaths[i] == p;
        assert FromRankedRow(table, s, fpaths, i);
        var k :| 0 <= k < |table| && Matches(s, table[k]) && Rank(table, s, k) == i && fpaths[i] == table[k].fpath;
        assert table[k] in table;
      }
      if exists row :: row in table && Matches(s, row) && row.fpath == p {
        var row :| row in table && Matches(s, row) && row.fpath == p;
        var k :| 0 <= k < |table| && table[k] == row;
        assert fpaths[Rank(table, s, k)] == p;
      }
    }
  }

  /** The raster paths of the matching rows, one per matching row, in table order. */
  function QueryPaths(table: seq<Catalogue.Row>, s: Selection): (fpaths: seq<string>)
    ensures |fpaths| == Count(table, Query(s))
    ensures PathsOfMatches(table, s, fpaths)
    ensures InTableOrder(table, s, fpaths)
  {
    KeptCount(table, Query(s));
    QueryOrder(table, s);
    OrderedMembers(table, s, Paths(Kept(table, Query(s))));
    Paths(Kept(table, Query(s)))
  }

  /** The path the map views draw, `fpaths[0]`, is that of the first matching
      row: when two catalogue files carry the same selector values, the
      earlier one in the table is shown. */
  lemma DrawnPathFirst(table: seq<Catalogue.Row>, s: Selection)
    requires QueryPaths(table, s) != []
    ensures exists k :: (0 <= k < |table| && Matches(s, table[k]) && QueryPaths(table, s)[0] == table[k].fpath &&
      forall k' :: 0 <= k' < k ==> !Matches(s, table[k']))
  {
    var fpaths := QueryPaths(table, s);
    assert FromRankedRow(table, s, fpaths, 0);
    var k :| 0 <= k < |table| && Matches(s, table[k]) && Rank(table, s, k) == 0 && fpaths[0] == table[k].fpath;
    CountZero(table, Query(s), k);
  }

  /** A row's year text matches at most one year: comparing `str(year)` with
      the table is comparing numbers, and a row whose year text is not the
      plain decimal spelling of any number (say "02025") never matches. */
  lemma YearMatchesOnce(row: Catalogue.Row, s: Selection, s': Selection)
    requires Matches(s, row) && Matches(s', row)
    ensures s.year == s'.year
  {
    NatToDecimalInjective(s.year, s'.year);
  }

  // ---------------------------------------------------------------------
  // Light and dark mode
  // ---------------------------------------------------------------------

  /** The colour of the mode switch. */
  function SwitchColour(on: bool): (colour: string)
    ensures colour == "#fce17c" <==> on
    ensures colour == "blue" <==> !on
  {
    if on then "#fce17c" else "blue"
  }

  /** The styles of the banner, the logo and the page body. */
  datatype ModeStyles = ModeStyles(banner: map<string, string>, logo: map<string, string>,
                                   body: map<string, string>)

  function ModeStyle(on: bool): (r: ModeStyles)
    ensures r.body.Keys == {"background-color"}
    ensures r.body["background-color"] == (if on then "white" else "black")
    ensures r.banner.Keys == {"width", "background-color", "display", "grid-area", "transition"}
    ensures r.logo.Keys == {"filter", "transition"}
  {
    var banner := map["width" := "100%", "display" := "inline-block", "grid-area" := "header",
                      "transition" := "background-color 0.3s"];
    if on then
      ModeStyles(banner["background-color" := "#2C7E9E"],
                 map["filter" := "invert(108%) sepia(0%) saturate(3207%) hue-rotate(0deg) brightness(100%) contrast(100%)",
                     "transition" := "filter 0.3s"],
                 map["background-color" := "white"])
    else
      ModeStyles(banner["background-color" := "#1F244D"],
                 map["filter" := "invert(38%) sepia(13%) saturate(3207%) hue-rotate(0deg) brightness(100%) contrast(80%)",
                     "transition" := "filter 0.3s"],
                 map["background-color" := "black"])
  }

  /** The two modes differ only in colours: the banner's background, the
      logo's filter and the body's background; layout and transitions agree. */
  lemma ModesDifferOnlyInColour()
    ensures ModeStyle(true).banner - {"background-color"} == ModeStyle(false).banner - {"background-color"}
    ensures ModeStyle(true).banner["background-color"] != ModeStyle(false).banner["background-color"]
    ensures ModeStyle(true).logo["transition"] == ModeStyle(false).logo["transition"]
    ensures ModeStyle(true).logo["filter"] != ModeStyle(false).logo["filter"]
    ensures ModeStyle(true).body != ModeStyle(false).body
  {
  }
}
