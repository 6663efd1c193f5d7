/** `transform_row` and `find`: running the generated statement and turning
    its rows into base records, each with the association data eager loading
    hands to it. */
module Finder {
  import opened Values
  import opened Strings
  import opened Records
  import Conditions
  import opened Query

  /** A result row: column alias (or name) and value, in column order. */
  type Row = seq<(string, Value)>

  /** Row data regrouped by table name, then by real column name. */
  type Objects = map<string, map<string, Value>>

  /** The alias lookup `generate_find_query` hands back. */
  type Lookup = map<string, (string, string)>

  // ---------------------------------------------------------------------
  // transform_row
  // ---------------------------------------------------------------------

  /** Where a row column goes: the table and column the lookup names, or the
      empty table and column when the lookup has no entry for it. */
  function Target(lookup: Lookup, col: string): (string, string)
  {
    if col in lookup then lookup[col] else ("", "")
  }

  /** The columns of table `t` gathered so far. */
  function TableOf(objects: Objects, t: string): map<string, Value>
  {
    if t in objects then objects[t] else map[]
  }

  /** The row regrouped column by column, a later column overwriting an
      earlier one with the same target. */
  function Regroup(row: Row, lookup: Lookup): Objects
    decreases |row|
  {
    if row == [] then map[]
    else
      var prev := Regroup(row[..|row| - 1], lookup);
      var target := Target(lookup, row[|row| - 1].0);
      prev[target.0 := TableOf(prev, target.0)[target.1 := row[|row| - 1].1]]
  }

  /** A table and column appear in the regrouped row exactly when some column
      of the row targets them. */
  lemma {:induction false} RegroupDomain(row: Row, lookup: Lookup)
    ensures forall t, c :: t in Regroup(row, lookup) && c in Regroup(row, lookup)[t]
              <==> exists i :: 0 <= i < |row| && Target(lookup, row[i].0) == (t, c)
    decreases |row|
  {
    if row != [] {
      var n := |row| - 1;
      RegroupDomain(row[..n], lookup);
      var r := Regroup(row, lookup);
      forall t, c | t in r && c in r[t] ensures exists i :: 0 <= i < |row| && Target(lookup, row[i].0) == (t, c) {
        if Target(lookup, row[n].0) != (t, c) {
          var i :| 0 <= i < n && Target(lookup, row[..n][i].0) == (t, c);
          assert row[i] == row[..n][i];
        }
      }
      forall t, c | exists i :: 0 <= i < |row| && Target(lookup, row[i].0) == (t, c) ensures t in r && c in r[t] {
        var i :| 0 <= i < |row| && Target(lookup, row[i].0) == (t, c);
        if i < n {
          assert row[..n][i] == row[i];
        }
      }
    }
  }

  /** Each target holds the value of the last column of the row that targets it. */
  lemma {:induction false} RegroupLastWins(row: Row, lookup: Lookup, i: nat)
    requires i < |row|
    requires forall j :: i < j < |row| ==> Target(lookup, row[j].0) != Target(lookup, row[i].0)
    ensures var t := Target(lookup, row[i].0);
      t.0 in Regroup(row, lookup) && t.1 in Regroup(row, lookup)[t.0] && Regroup(row, lookup)[t.0][t.1] == row[i].1
    decreases |row|
  {
    var n := |row| - 1;
    if i < n {
      forall j | i < j < n ensures Target(lookup, row[..n][j].0) != Target(lookup, row[..n][i].0) {
        assert row[..n][j] == row[j] && row[..n][i] == row[i];
      }
      RegroupLastWins(row[..n], lookup, i);
      assert row[..n][i] == row[i];
    }
  }

  /** `transform_row`: each column value stored under its table and real
      column name. */
  method TransformRow(row: Row, lookup: Lookup) returns (objects: Objects)
    ensures objects == Regroup(row, lookup)
  {
    objects := map[];
    for i := 0 to |row|
      invariant objects == Regroup(row[..i], lookup)
    {
      assert row[..i + 1][..i] == row[..i];
      var target := Target(lookup, row[i].0);
      var table := if target.0 in objects then objects[target.0] else map[];
      objects := objects[target.0 := table[target.1 := row[i].1]];
    }
    assert row[..|row|] == row;
  }

  // ---------------------------------------------------------------------
  // Association data for one base record
  // ---------------------------------------------------------------------

  /** What `find` yields for one base record: the attributes it is built
      from (no table data at all is PHP's null) and, per association name,
      the table data handed to `populate_from_find`, in row order. */
  datatype Found = Found(attributes: Option<map<string, Value>>, loaded: map<string, seq<map<string, Value>>>)

  /** The data loaded for association `a` so far. */
  function LoadedFor(loaded: map<string, seq<map<string, Value>>>, a: string): seq<map<string, Value>>
  {
    if a in loaded then loaded[a] else []
  }

  /** The row carries data for association `a`: its pluralised name is a
      table of the row other than the base table. */
  predicate Feeds(objects: Objects, pluralize: string -> string, base: string, a: string)
  {
    pluralize(a) in objects && pluralize(a) != base
  }

  /** Each association among `names` that the row feeds gets that table's
      data appended. */
  function Gather(loaded: map<string, seq<map<string, Value>>>, objects: Objects, names: seq<string>,
                  pluralize: string -> string, base: string): map<string, seq<map<string, Value>>>
    decreases |names|
  {
    if names == [] then loaded
    else
      var prev := Gather(loaded, objects, names[..|names| - 1], pluralize, base);
      var a := names[|names| - 1];
      if Feeds(objects, pluralize, base, a) then prev[a := LoadedFor(prev, a) + [objects[pluralize(a)]]]
      else prev
  }

  predicate Distinct(names: seq<string>)
  {
    forall i, j :: 0 <= i < j < |names| ==> names[i] != names[j]
  }

  /** Over distinct association names, one row appends exactly one piece of
      data to each association it feeds and nothing to any other name. */
  lemma {:induction false} GatherAppends(loaded: map<string, seq<map<string, Value>>>, objects: Objects, names: seq<string>,
                                         pluralize: string -> string, base: string)
    requires Distinct(names)
    ensures forall a :: LoadedFor(Gather(loaded, objects, names, pluralize, base), a)
              == LoadedFor(loaded, a) + (if a in names && Feeds(objects, pluralize, base, a) then [objects[pluralize(a)]] else [])
    decreases |names|
  {
    if names != [] {
      var n := |names| - 1;
      assert Distinct(names[..n]);
      GatherAppends(loaded, objects, names[..n], pluralize, base);
      forall a ensures LoadedFor(Gather(loaded, objects, names, pluralize, base), a)
              == LoadedFor(loaded, a) + (if a in names && Feeds(objects, pluralize, base, a) then [objects[pluralize(a)]] else []) {
        assert a in names <==> a in names[..n] || a == names[n] by {
          if a in names {
            var k :| 0 <= k < |names| && names[k] == a;
            if k < n { assert names[..n][k] == a; }
          }
        }
        if a == names[n] {
          assert a !in names[..n];
        }
      }
    }
  }

  /** The association data of one row added to a base record, association
      by association. */
  method AddAssociationData(loaded: map<string, seq<map<string, Value>>>, objects: Objects, names: seq<string>,
                            pluralize: string -> string, base: string)
    returns (r: map<string, seq<map<string, Value>>>)
    ensures r == Gather(loaded, objects, names, pluralize, base)
  {
    r := loaded;
    for i := 0 to |names|
      invariant r == Gather(loaded, objects, names[..i], pluralize, base)
    {
      assert names[..i + 1][..i] == names[..i];
      var a := names[i];
      if pluralize(a) in objects && pluralize(a) != base {
        var sofar := if a in r then r[a] else [];
        r := r[a := sofar + [objects[pluralize(a)]]];
      }
    }
    assert names[..|names|] == names;
  }

  // ---------------------------------------------------------------------
  // Base records
  // ---------------------------------------------------------------------

  /** The base table's data in a regrouped row. */
  function BaseOf(objects: Objects, base: string): Option<map<string, Value>>
  {
    if base in objects then Some(objects[base]) else None
  }

  /** The record already built from the same base data, if any. */
  function Position(found: seq<Found>, key: Option<map<string, Value>>): (r: Option<nat>)
    ensures r.Some? ==> r.value < |found| && found[r.value].attributes == key
    ensures r.None? ==> forall k :: 0 <= k < |found| ==> found[k].attributes != key
    decreases |found|
  {
    if found == [] then None
    else if found[|found| - 1].attributes == key then Some(|found| - 1)
    else Position(found[..|found| - 1], key)
  }

  /** With joins: one record per distinct base data, in the order first seen,
      each gathering the association data of every row it appears in. */
  function Joined(objs: seq<Objects>, names: seq<string>, pluralize: string -> string, base: string): seq<Found>
    decreases |objs|
  {
    if objs == [] then []
    else
      var prev := Joined(objs[..|objs| - 1], names, pluralize, base);
      var objects := objs[|objs| - 1];
      var key := BaseOf(objects, base);
      match Position(prev, key)
      case Some(k) => prev[k := prev[k].(loaded := Gather(prev[k].loaded, objects, names, pluralize, base))]
      case None => prev + [Found(key, Gather(map[], objects, names, pluralize, base))]
  }

  /** The data rows with base data `key` hand to association `a`, in row order. */
  function Fragments(objs: seq<Objects>, pluralize: string -> string, base: string,
                     key: Option<map<string, Value>>, a: string): seq<map<string, Value>>
    decreases |objs|
  {
    if objs == [] then []
    else
      var objects := objs[|objs| - 1];
      Fragments(objs[..|objs| - 1], pluralize, base, key, a)
      + (if BaseOf(objects, base) == key && Feeds(objects, pluralize, base, a) then [objects[pluralize(a)]] else [])
  }

  /** What the last row does to the records built from the rows before it:
      it adds to the record with its base data, or appends a new record when
      there is none, and never changes the base data of a record. */
  lemma JoinedLast(objs: seq<Objects>, names: seq<string>, pluralize: string -> string, base: string)
    requires objs != []
    ensures var prev := Joined(objs[..|objs| - 1], names, pluralize, base);
      var found := Joined(objs, names, pluralize, base);
      var key := BaseOf(objs[|objs| - 1], base);
      && (forall k :: 0 <= k < |prev| ==> found[k].attributes == prev[k].attributes)
      && (Position(prev, key).Some? ==> |found| == |prev|)
      && (Position(prev, key).None? ==> |found| == |prev| + 1 && found[|prev|].attributes == key)
  {
  }

  /** With joins no two records share base data. */
  lemma {:induction false} JoinedDistinct(objs: seq<Objects>, names: seq<string>, pluralize: string -> string, base: string)
    ensures var found := Joined(objs, names, pluralize, base);
      forall k, l :: 0 <= k < l < |found| ==> found[k].attributes != found[l].attributes
    decreases |objs|
  {
    if objs != [] {
      JoinedDistinct(objs[..|objs| - 1], names, pluralize, base);
      JoinedLast(objs, names, pluralize, base);
    }
  }

  /** With joins every row's base data has a record. */
  lemma {:induction false} JoinedCovers(objs: seq<Objects>, names: seq<string>, pluralize: string -> string, base: string)
    ensures var found := Joined(objs, names, pluralize, base);
      forall i :: 0 <= i < |objs| ==> exists k :: 0 <= k < |found| && found[k].attributes == BaseOf(objs[i], base)
    decreases |objs|
  {
    if objs != [] {
      var n := |objs| - 1;
      var prev := Joined(objs[..n], names, pluralize, base);
      var found := Joined(objs, names, pluralize, base);
      var key := BaseOf(objs[n], base);
      JoinedCovers(objs[..n], names, pluralize, base);
      JoinedLast(objs, names, pluralize, base);
      forall i | 0 <= i < |objs| ensures exists k :: 0 <= k < |found| && found[k].attributes == BaseOf(objs[i], base) {
        if i < n {
          assert objs[..n][i] == objs[i];
          var k :| 0 <= k < |prev| && prev[k].attributes == BaseOf(objs[..n][i], base);
          assert found[k].attributes == prev[k].attributes;
        } else if Position(prev, key).Some? {
          var k := Position(prev, key).value;
          assert found[k].attributes == prev[k].attributes;
        } else {
          assert found[|prev|].attributes == key;
        }
      }
    }
  }

  /** With joins every record's base data comes from some row. */
  lemma {:induction false} JoinedFromRows(objs: seq<Objects>, names: seq<string>, pluralize: string -> string, base: string)
    ensures var found := Joined(objs, names, pluralize, base);
      forall k :: 0 <= k < |found| ==> exists i :: 0 <= i < |objs| && BaseOf(objs[i], base) == found[k].attributes
    decreases |objs|
  {
    if objs != [] {
      var n := |objs| - 1;
      var prev := Joined(objs[..n], names, pluralize, base);
      var found := Joined(objs, names, pluralize, base);
      JoinedFromRows(objs[..n], names, pluralize, base);
      JoinedLast(objs, names, pluralize, base);
      forall k | 0 <= k < |found| ensures exists i :: 0 <= i < |objs| && BaseOf(objs[i], base) == found[k].attributes {
        if k < |prev| {
          var i :| 0 <= i < n && BaseOf(objs[..n][i], base) == prev[k].attributes;
          assert objs[..n][i] == objs[i];
        } else {
          assert BaseOf(objs[n], base) == found[k].attributes;
        }
      }
    }
  }

  /** With joins the records come in the order their base data is first
      seen: any row carrying record `l`'s base data comes after some row
      carrying the base data of every earlier record `k`. */
  lemma {:induction false} JoinedFirstSeen(objs: seq<Objects>, names: seq<string>, pluralize: string -> string, base: string)
    ensures var found := Joined(objs, names, pluralize, base);
      forall k, l, i :: 0 <= k < l < |found| && 0 <= i < |objs| && BaseOf(objs[i], base) == found[l].attributes ==>
        exists j :: 0 <= j < i && BaseOf(objs[j], base) == found[k].attributes
    decreases |objs|, 1
  {
    if objs != [] {
      var found := Joined(objs, names, pluralize, base);
      forall k, l, i | 0 <= k < l < |found| && 0 <= i < |objs| && BaseOf(objs[i], base) == found[l].attributes
        ensures exists j :: 0 <= j < i && BaseOf(objs[j], base) == found[k].attributes
      {
        if i < |objs| - 1 {
          FirstSeenEarlierRow(objs, names, pluralize, base, k, l, i);
        } else {
          SeenBeforeLast(objs, names, pluralize, base, k, l);
        }
      }
    }
  }

  /** The step of `JoinedFirstSeen` for a row before the last: the records
      built before the last row already satisfy it. */
  lemma {:induction false} FirstSeenEarlierRow(objs: seq<Objects>, names: seq<string>, pluralize: string -> string, base: string,
                                               k: nat, l: nat, i: nat)
    requires objs != [] && i < |objs| - 1 && k < l < |Joined(objs, names, pluralize, base)|
    requires BaseOf(objs[i], base) == Joined(objs, names, pluralize, base)[l].attributes
    ensures exists j :: 0 <= j < i && BaseOf(objs[j], base) == Joined(objs, names, pluralize, base)[k].attributes
    decreases |objs|, 0
  {
    var n := |objs| - 1;
    var prefix := objs[..n];
    var prev := Joined(prefix, names, pluralize, base);
    var found := Joined(objs, names, pluralize, base);
    EarlierRowRecord(objs, names, pluralize, base, l, i);
    JoinedLast(objs, names, pluralize, base);
    assert found[k].attributes == prev[k].attributes && found[l].attributes == prev[l].attributes;
    assert prefix[i] == objs[i];
    assert BaseOf(prefix[i], base) == prev[l].attributes;
    assert exists j :: 0 <= j < i && BaseOf(prefix[j], base) == prev[k].attributes by {
      JoinedFirstSeen(prefix, names, pluralize, base);
    }
    var j :| 0 <= j < i && BaseOf(prefix[j], base) == prev[k].attributes;
    assert prefix[j] == objs[j];
  }

  /** The step of `JoinedFirstSeen` for the last row: every record but the
      last has base data from an earlier row. */
  lemma SeenBeforeLast(objs: seq<Objects>, names: seq<string>, pluralize: string -> string, base: string, k: nat, l: nat)
    requires objs != [] && k < l < |Joined(objs, names, pluralize, base)|
    ensures exists j :: 0 <= j < |objs| - 1 && BaseOf(objs[j], base) == Joined(objs, names, pluralize, base)[k].attributes
  {
    var n := |objs| - 1;
    var prev := Joined(objs[..n], names, pluralize, base);
    JoinedLast(objs, names, pluralize, base);
    JoinedFromRows(objs[..n], names, pluralize, base);
    assert k < |prev|;
    var j :| 0 <= j < n && BaseOf(objs[..n][j], base) == prev[k].attributes;
    assert objs[..n][j] == objs[j];
  }

  /** A row before the last one has its record among those built before
      the last row. */
  lemma EarlierRowRecord(objs: seq<Objects>, names: seq<string>, pluralize: string -> string, base: string, l: nat, i: nat)
    requires objs != [] && i < |objs| - 1
    requires l < |Joined(objs, names, pluralize, base)| && BaseOf(objs[i], base) == Joined(objs, names, pluralize, base)[l].attributes
    ensures l < |Joined(objs[..|objs| - 1], names, pluralize, base)|
  {
    var n := |objs| - 1;
    var prev := Joined(objs[..n], names, pluralize, base);
    var found := Joined(objs, names, pluralize, base);
    JoinedLast(objs, names, pluralize, base);
    JoinedCovers(objs[..n], names, pluralize, base);
    JoinedDistinct(objs, names, pluralize, base);
    assert objs[..n][i] == objs[i];
    var m :| 0 <= m < |prev| && prev[m].attributes == BaseOf(objs[..n][i], base);
    assert found[m].attributes == found[l].attributes;
  }

  /** Rows none of which has base data `key` hand nothing to it. */
  lemma {:induction false} FragmentsAbsent(objs: seq<Objects>, pluralize: string -> string, base: string,
                                           key: Option<map<string, Value>>, a: string)
    requires forall i :: 0 <= i < |objs| ==> BaseOf(objs[i], base) != key
    ensures Fragments(objs, pluralize, base, key, a) == []
    decreases |objs|
  {
    if objs != [] {
      var n := |objs| - 1;
      assert BaseOf(objs[n], base) != key;
      forall i | 0 <= i < n ensures BaseOf(objs[..n][i], base) != key {
        assert objs[..n][i] == objs[i];
      }
      FragmentsAbsent(objs[..n], pluralize, base, key, a);
    }
  }

  /** With joins each record holds, per association, exactly the data of the
      rows with its base data, in row order; names that are not associations
      get nothing. */
  lemma {:induction false} JoinedLoaded(objs: seq<Objects>, names: seq<string>, pluralize: string -> string, base: string)
    requires Distinct(names)
    ensures var found := Joined(objs, names, pluralize, base);
      forall k, a :: 0 <= k < |found| ==>
        LoadedFor(found[k].loaded, a) == (if a in names then Fragments(objs, pluralize, base, found[k].attributes, a) else [])
    decreases |objs|
  {
    if objs != [] {
      var n := |objs| - 1;
      var prev := Joined(objs[..n], names, pluralize, base);
      var found := Joined(objs, names, pluralize, base);
      JoinedLoaded(objs[..n], names, pluralize, base);
      JoinedLast(objs, names, pluralize, base);
      forall k, a | 0 <= k < |found|
        ensures LoadedFor(found[k].loaded, a) == (if a in names then Fragments(objs, pluralize, base, found[k].attributes, a) else [])
      {
        if k >= |prev| {
          LoadedNew(objs, names, pluralize, base, a);
        } else if prev[k].attributes != BaseOf(objs[n], base) {
          LoadedUntouched(objs, names, pluralize, base, k, a);
        } else {
          LoadedUpdated(objs, names, pluralize, base, k, a);
        }
      }
    }
  }

  /** The step of `JoinedLoaded` for a record whose base data is not the
      last row's: the last row hands it nothing. */
  lemma LoadedUntouched(objs: seq<Objects>, names: seq<string>, pluralize: string -> string, base: string, k: nat, a: string)
    requires objs != []
    requires var prev := Joined(objs[..|objs| - 1], names, pluralize, base);
      && k < |prev| && prev[k].attributes != BaseOf(objs[|objs| - 1], base)
      && LoadedFor(prev[k].loaded, a) == (if a in names then Fragments(objs[..|objs| - 1], pluralize, base, prev[k].attributes, a) else [])
    ensures var found := Joined(objs, names, pluralize, base);
      k < |found| && LoadedFor(found[k].loaded, a) == (if a in names then Fragments(objs, pluralize, base, found[k].attributes, a) else [])
  {
    var prev := Joined(objs[..|objs| - 1], names, pluralize, base);
    JoinedLast(objs, names, pluralize, base);
    assert Joined(objs, names, pluralize, base)[k] == prev[k];
  }

  /** The step of `JoinedLoaded` for the record with the last row's base
      data: the row's association data is appended to it. */
  lemma LoadedUpdated(objs: seq<Objects>, names: seq<string>, pluralize: string -> string, base: string, k: nat, a: string)
    requires objs != [] && Distinct(names)
    requires var prev := Joined(objs[..|objs| - 1], names, pluralize, base);
      && k < |prev| && prev[k].attributes == BaseOf(objs[|objs| - 1], base)
      && LoadedFor(prev[k].loaded, a) == (if a in names then Fragments(objs[..|objs| - 1], pluralize, base, prev[k].attributes, a) else [])
    ensures var found := Joined(objs, names, pluralize, base);
      k < |found| && LoadedFor(found[k].loaded, a) == (if a in names then Fragments(objs, pluralize, base, found[k].attributes, a) else [])
  {
    var n := |objs| - 1;
    var prev := Joined(objs[..n], names, pluralize, base);
    var key := BaseOf(objs[n], base);
    JoinedLast(objs, names, pluralize, base);
    assert Position(prev, key) == Some(k) by { JoinedDistinct(objs[..n], names, pluralize, base); }
    GatherAppends(prev[k].loaded, objs[n], names, pluralize, base);
    assert Joined(objs, names, pluralize, base)[k].loaded == Gather(prev[k].loaded, objs[n], names, pluralize, base);
  }

  /** The step of `JoinedLoaded` for a record the last row starts: no
      earlier row has its base data, so it holds this row's data only. */
  lemma LoadedNew(objs: seq<Objects>, names: seq<string>, pluralize: string -> string, base: string, a: string)
    requires objs != [] && Distinct(names)
    requires |Joined(objs, names, pluralize, base)| > |Joined(objs[..|objs| - 1], names, pluralize, base)|
    ensures var found := Joined(objs, names, pluralize, base);
      var k := |found| - 1;
      LoadedFor(found[k].loaded, a) == (if a in names then Fragments(objs, pluralize, base, found[k].attributes, a) else [])
  {
    var n := |objs| - 1;
    var prev := Joined(objs[..n], names, pluralize, base);
    var key := BaseOf(objs[n], base);
    JoinedLast(objs, names, pluralize, base);
    NoEarlierRow(objs, names, pluralize, base);
    forall i | 0 <= i < n ensures BaseOf(objs[..n][i], base) != key {
      assert objs[..n][i] == objs[i];
    }
    FragmentsAbsent(objs[..n], pluralize, base, key, a);
    GatherAppends(map[], objs[n], names, pluralize, base);
    assert Joined(objs, names, pluralize, base)[|prev|] == Found(key, Gather(map[], objs[n], names, pluralize, base));
  }

  /** A row whose base data has no record yet is the first row with it. */
  lemma NoEarlierRow(objs: seq<Objects>, names: seq<string>, pluralize: string -> string, base: string)
    requires objs != []
    requires Position(Joined(objs[..|objs| - 1], names, pluralize, base), BaseOf(objs[|objs| - 1], base)).None?
    ensures forall i :: 0 <= i < |objs| - 1 ==> BaseOf(objs[i], base) != BaseOf(objs[|objs| - 1], base)
  {
    var n := |objs| - 1;
    JoinedCovers(objs[..n], names, pluralize, base);
    forall i | 0 <= i < n ensures BaseOf(objs[i], base) != BaseOf(objs[n], base) {
      assert objs[..n][i] == objs[i];
    }
  }

  // ---------------------------------------------------------------------
  // find
  // ---------------------------------------------------------------------

  /** Without joins: one record per row, in row order, built from the row's
      own columns, with no association data. */
  function Plain(rows: seq<Row>): (r: seq<Found>)
    ensures |r| == |rows|
    ensures forall i :: 0 <= i < |rows| ==> r[i].attributes == Some(MapOf(rows[i])) && r[i].loaded == map[]
    decreases |rows|
  {
    if rows == [] then []
    else Plain(rows[..|rows| - 1]) + [Found(Some(MapOf(rows[|rows| - 1])), map[])]
  }

  /** Every row regrouped by table. */
  function Transformed(rows: seq<Row>, lookup: Lookup): (r: seq<Objects>)
    ensures |r| == |rows|
    ensures forall i :: 0 <= i < |rows| ==> r[i] == Regroup(rows[i], lookup)
  {
    seq(|rows|, i requires 0 <= i < |rows| => Regroup(rows[i], lookup))
  }

  /** The association names of a freshly built instance, in registration order. */
  function AssociationNames(schema: Schema, pluralize: string -> string): seq<string>
  {
    Construct(schema, pluralize, None, true, false).0.order
  }

  /** The records the rows yield: with a non-empty lookup, joined by base
      data; otherwise one per row. */
  function Demux(rows: seq<Row>, lookup: Lookup, names: seq<string>, pluralize: string -> string, base: string): seq<Found>
  {
    if |lookup| > 0 then Joined(Transformed(rows, lookup), names, pluralize, base) else Plain(rows)
  }

  /** What `find` hands back: a list for ids and `'all'`, otherwise the first
      record or PHP's null. */
  datatype Outcome = Many(records: seq<Found>) | Single(record: Option<Found>)

  /** Nothing found for ids or a numeric id is an error; ids and `'all'`
      give the list, `'first'` and a single id its first element. */
  function Finish(id: Identifier, found: seq<Found>): Result<Outcome>
  {
    if |found| == 0 && (id.Ids? || (id.One? && IsNumeric(id.id))) then Err(RecordNotFound)
    else if id.Ids? || id == All then Ok(Many(found))
    else Ok(Single(if found == [] then None else Some(found[0])))
  }

  /** The records `find` builds from the rows `db` returns for the generated
      statement. */
  function FoundBy(schema: Schema, inflector: Inflector, quote: Conditions.Elem -> string, id: Identifier, opts: Options,
                   db: string -> seq<Row>): seq<Found>
  {
    Demux(db(Render(Clauses(schema, inflector, quote, id, opts))), LookupOf(TablesOf(schema, inflector, opts)),
          AssociationNames(schema, inflector.pluralize), inflector.pluralize, inflector.tableize(schema.className))
  }

  function FindSpec(schema: Schema, inflector: Inflector, quote: Conditions.Elem -> string, id: Identifier, opts: Options,
                    db: string -> seq<Row>): Result<Outcome>
  {
    Finish(id, FoundBy(schema, inflector, quote, id, opts, db))
  }

  /** The outcomes of `find`: the record-not-found error exactly when
      nothing was found for ids or a numeric id; `'all'` and `'first'` never
      fail; ids and `'all'` give every record, `'first'` and a single id
      the first record or null. */
  lemma FindOutcomes(schema: Schema, inflector: Inflector, quote: Conditions.Elem -> string, id: Identifier, opts: Options,
                     db: string -> seq<Row>)
    ensures var found := FoundBy(schema, inflector, quote, id, opts, db);
      var r := FindSpec(schema, inflector, quote, id, opts, db);
      && (r.Err? <==> found == [] && (id.Ids? || (id.One? && IsNumeric(id.id))))
      && (r.Err? ==> r.error == RecordNotFound)
      && (id == All || id == First ==> r.Ok?)
      && (r.Ok? && (id.Ids? || id == All) ==> r.value == Many(found))
      && (r.Ok? && (id == First || id.One?) ==> r.value == Single(if found == [] then None else Some(found[0])))
  {
  }

  /** Without `include` the lookup is empty and every row becomes its own
      record, in row order, built from the row's columns. */
  lemma FindWithoutInclude(schema: Schema, inflector: Inflector, quote: Conditions.Elem -> string, id: Identifier, opts: Options,
                           db: string -> seq<Row>)
    requires opts.includes.None?
    ensures var rows := db(Render(Clauses(schema, inflector, quote, id, opts)));
      var found := FoundBy(schema, inflector, quote, id, opts, db);
      |found| == |rows| && forall i :: 0 <= i < |rows| ==> found[i].attributes == Some(MapOf(rows[i])) && found[i].loaded == map[]
  {
    assert TablesOf(schema, inflector, opts) == [];
  }

  /** With `include` and a table that has columns, the lookup is not empty
      and the rows are joined by base data (see `JoinedDistinct`,
      `JoinedCovers`, `JoinedFromRows` and `JoinedLoaded`). */
  lemma FindWithInclude(schema: Schema, inflector: Inflector, quote: Conditions.Elem -> string, id: Identifier, opts: Options,
                        db: string -> seq<Row>)
    requires opts.includes.Some? && |schema.columns| > 0
    ensures var rows := db(Render(Clauses(schema, inflector, quote, id, opts)));
      var lookup := LookupOf(TablesOf(schema, inflector, opts));
      FoundBy(schema, inflector, quote, id, opts, db)
      == Joined(Transformed(rows, lookup), AssociationNames(schema, inflector.pluralize),
                inflector.pluralize, inflector.tableize(schema.className))
  {
    var tables := TablesOf(schema, inflector, opts);
    assert tables[0].1 == schema.columns;
    assert Alias(0, 0) in LookupOf(tables);
  }

  /** `find`: run the generated statement through `db` and build the records. */
  method Find(schema: Schema, inflector: Inflector, quote: Conditions.Elem -> string, id: Identifier, opts: Options,
              db: string -> seq<Row>)
    returns (r: Result<Outcome>)
    ensures r == FindSpec(schema, inflector, quote, id, opts, db)
  {
    var query, lookup := GenerateFindQuery(schema, inflector, quote, id, opts);
    var rows := db(query);
    var found := BuildRecords(rows, lookup, AssociationNames(schema, inflector.pluralize),
                         inflector.pluralize, inflector.tableize(schema.className));
    if |found| == 0 && (id.Ids? || (id.One? && IsNumeric(id.id))) {
      return Err(RecordNotFound);
    }
    if id.Ids? || id == All {
      r := Ok(Many(found));
    } else {
      r := Ok(Single(if |found| > 0 then Some(found[0]) else None));
    }
  }

  /** The loop over the rows: one new record per row without joins; with
      joins, a row whose base data is new starts a record, and every row adds
      its association data to the record with its base data. */
  method BuildRecords(rows: seq<Row>, lookup: Lookup, names: seq<string>, pluralize: string -> string, base: string)
    returns (found: seq<Found>)
    ensures found == Demux(rows, lookup, names, pluralize, base)
  {
    found := [];
    for i := 0 to |rows|
      invariant |lookup| > 0 ==> found == Joined(Transformed(rows[..i], lookup), names, pluralize, base)
      invariant |lookup| == 0 ==> found == Plain(rows[..i])
    {
      assert rows[..i + 1][..i] == rows[..i];
      if |lookup| > 0 {
        var objects := TransformRow(rows[i], lookup);
        ghost var objs := Transformed(rows[..i + 1], lookup);
        assert objs[..i] == Transformed(rows[..i], lookup);
        assert objs[i] == objects;
        var key := if base in objects then Some(objects[base]) else None;
        var pos := Position(found, key);
        if pos.Some? {
          var k := pos.value;
          var loaded := AddAssociationData(found[k].loaded, objects, names, pluralize, base);
          found := found[k := found[k].(loaded := loaded)];
        } else {
          var loaded := AddAssociationData(map[], objects, names, pluralize, base);
          found := found + [Found(key, loaded)];
        }
      } else {
        found := found + [Found(Some(MapOf(rows[i])), map[])];
      }
    }
    assert rows[..|rows|] == rows;
  }
}
