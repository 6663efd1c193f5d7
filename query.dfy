/** `generate_find_query`: the SELECT statement `find` runs and, for eager
    loading, the lookup from column aliases back to tables and columns. */
module Query {
  import opened Values
  import opened Strings
  import opened Records
  import opened Conditions

  /** What `find` is asked for: a list of ids, `'first'`, `'all'` or one id. */
  datatype Identifier = Ids(ids: seq<string>) | First | All | One(id: string)

  /** The options array; an absent key is `None`. */
  datatype Options = Options(
    limit: Option<string>,
    order: Option<string>,
    group: Option<string>,
    offset: Option<string>,
    conditions: Option<Conditions>,
    select: Option<string>,
    includes: Option<string>)

  /** A table with its column list, as eager loading selects them. */
  type TableColumns = (string, seq<string>)

  /** `limit`, `order` and `group` survive only when present and whitelisted. */
  function Sanitize(o: Option<string>): (r: string)
    ensures r != "" ==> o == Some(r) && Whitelisted(r)
    ensures o.Some? && Whitelisted(o.value) ==> r == o.value
  {
    if o.Some? && Whitelisted(o.value) then o.value else ""
  }

  /** `offset` survives only when present and numeric. */
  function SanitizeOffset(o: Option<string>): (r: string)
    ensures r != "" ==> o == Some(r) && IsNumeric(r)
    ensures o.Some? && IsNumeric(o.value) ==> r == o.value
  {
    if o.Some? && IsNumeric(o.value) then o.value else ""
  }

  // ---------------------------------------------------------------------
  // Column aliases and the lookup
  // ---------------------------------------------------------------------

  /** The alias `t<i>_r<j>` of column `j` of table `i`. */
  function Alias(i: nat, j: nat): string
  {
    "t" + NatToString(i) + "_r" + NatToString(j)
  }

  lemma MarkerAt(d: string, e: string, m: nat)
    ensures m == |d| ==> (d + "_r" + e)[m] == '_'
    ensures m < |d| ==> (d + "_r" + e)[m] == d[m]
  {
  }

  /** Two digit strings followed by `_r` part at the same place. */
  lemma DigitsBeforeMarker(d1: string, e1: string, d2: string, e2: string)
    requires forall k :: 0 <= k < |d1| ==> IsDigit(d1[k])
    requires forall k :: 0 <= k < |d2| ==> IsDigit(d2[k])
    requires d1 + "_r" + e1 == d2 + "_r" + e2
    ensures d1 == d2 && e1 == e2
  {
    var s := d1 + "_r" + e1;
    if |d1| < |d2| {
      MarkerAt(d1, e1, |d1|);
      assert false;
    } else if |d2| < |d1| {
      MarkerAt(d2, e2, |d2|);
      assert false;
    } else {
      assert d1 == s[..|d1|];
      assert e1 == s[|d1| + 2..];
    }
  }

  /** Distinct column positions have distinct aliases. */
  lemma AliasInjective(i: nat, j: nat, i2: nat, j2: nat)
    requires Alias(i, j) == Alias(i2, j2)
    ensures i == i2 && j == j2
  {
    var a, b := NatToString(i) + "_r" + NatToString(j), NatToString(i2) + "_r" + NatToString(j2);
    assert a == Alias(i, j)[1..] && b == Alias(i2, j2)[1..];
    DigitsBeforeMarker(NatToString(i), NatToString(j), NatToString(i2), NatToString(j2));
    NatToStringInjective(i, i2);
    NatToStringInjective(j, j2);
  }

  /** The select expressions of table `i`. */
  function TableSelects(i: nat, table: string, cols: seq<string>): (r: seq<string>)
    ensures |r| == |cols|
    ensures forall j :: 0 <= j < |cols| ==> r[j] == table + ".`" + cols[j] + "` AS " + Alias(i, j)
    decreases |cols|
  {
    if cols == [] then []
    else TableSelects(i, table, cols[..|cols| - 1]) + [table + ".`" + cols[|cols| - 1] + "` AS " + Alias(i, |cols| - 1)]
  }

  /** The lookup entries of table `i`: its aliases, each naming exactly its
      own table and column. */
  function TableLookup(i: nat, table: string, cols: seq<string>): (r: map<string, (string, string)>)
    ensures forall j :: 0 <= j < |cols| ==> Alias(i, j) in r && r[Alias(i, j)] == (table, cols[j])
    ensures forall a :: a in r ==> exists j :: 0 <= j < |cols| && a == Alias(i, j)
    decreases |cols|
  {
    if cols == [] then map[]
    else
      var n := |cols| - 1;
      var prev := TableLookup(i, table, cols[..n]);
      forall j | 0 <= j < n ensures Alias(i, j) != Alias(i, n) {
        if Alias(i, j) == Alias(i, n) { AliasInjective(i, j, i, n); }
      }
      prev[Alias(i, n) := (table, cols[n])]
  }

  /** Every select expression, table by table. */
  function SelectList(tables: seq<TableColumns>): seq<string>
    decreases |tables|
  {
    if tables == [] then []
    else
      var n := |tables| - 1;
      SelectList(tables[..n]) + TableSelects(n, tables[n].0, tables[n].1)
  }

  /** `column_lookup`: every alias maps back to exactly the table and column
      it was selected for, and there is no other entry. */
  function LookupOf(tables: seq<TableColumns>): (r: map<string, (string, string)>)
    ensures forall i, j :: 0 <= i < |tables| && 0 <= j < |tables[i].1| ==>
              Alias(i, j) in r && r[Alias(i, j)] == (tables[i].0, tables[i].1[j])
    ensures forall a :: a in r ==> exists i, j :: 0 <= i < |tables| && 0 <= j < |tables[i].1| && a == Alias(i, j)
    decreases |tables|
  {
    if tables == [] then map[]
    else
      var n := |tables| - 1;
      var prev := LookupOf(tables[..n]);
      var last := TableLookup(n, tables[n].0, tables[n].1);
      forall i, j | 0 <= i < n && 0 <= j < |tables[i].1| ensures Alias(i, j) !in last {
        if Alias(i, j) in last {
          var j2 :| 0 <= j2 < |tables[n].1| && Alias(i, j) == Alias(n, j2);
          AliasInjective(i, j, n, j2);
        }
      }
      prev + last
  }

  // ---------------------------------------------------------------------
  // The plan of the statement
  // ---------------------------------------------------------------------

  /** The associations of a freshly built instance (`new $class_name`). */
  function FreshAssociations(schema: Schema, pluralize: string -> string): map<string, Association>
  {
    Construct(schema, pluralize, None, true, false).0.associations
  }

  /** The names in `names` that are associations, in the order named. */
  function Existing(assocs: map<string, Association>, names: seq<string>): (r: seq<string>)
    ensures |r| <= |names|
    ensures forall k :: 0 <= k < |r| ==> r[k] in assocs && r[k] in names
    ensures forall n :: n in names && n in assocs ==> n in r
    decreases |names|
  {
    if names == [] then []
    else
      var n := names[|names| - 1];
      var prefix := names[..|names| - 1];
      assert forall m :: m in names ==> m in prefix || m == n;
      Existing(assocs, prefix) + (if n in assocs then [n] else [])
  }

  /** Filtering keeps the order: the names of a concatenation are those of
      its halves, one after the other. */
  lemma {:induction false} ExistingAppend(assocs: map<string, Association>, a: seq<string>, b: seq<string>)
    ensures Existing(assocs, a + b) == Existing(assocs, a) + Existing(assocs, b)
    decreases |b|
  {
    if b == [] {
      assert a + b == a;
    } else {
      assert (a + b)[..|a + b| - 1] == a + b[..|b| - 1];
      ExistingAppend(assocs, a, b[..|b| - 1]);
    }
  }

  /** The join specifications of the named associations that exist, in the
      order named; other names are skipped. */
  function Included(assocs: map<string, Association>, names: seq<string>): (r: seq<JoinSpec>)
    ensures |r| <= |names|
    decreases |names|
  {
    if names == [] then []
    else
      var n := names[|names| - 1];
      Included(assocs, names[..|names| - 1]) + (if n in assocs then [assocs[n].join] else [])
  }

  /** The joins are those of the existing associations named, one each, in
      the order named. */
  lemma {:induction false} IncludedExisting(assocs: map<string, Association>, names: seq<string>)
    ensures |Included(assocs, names)| == |Existing(assocs, names)|
    ensures forall k :: 0 <= k < |Included(assocs, names)| ==>
      Included(assocs, names)[k] == assocs[Existing(assocs, names)[k]].join
    decreases |names|
  {
    if names != [] {
      IncludedExisting(assocs, names[..|names| - 1]);
    }
  }

  /** One more name adds its association's join, if it names one. */
  lemma IncludedStep(assocs: map<string, Association>, names: seq<string>, i: nat)
    requires i < |names|
    ensures Included(assocs, names[..i + 1])
         == Included(assocs, names[..i]) + (if names[i] in assocs then [assocs[names[i]].join] else [])
  {
    assert names[..i + 1][..i] == names[..i];
  }

  function JoinTables(js: seq<JoinSpec>): (r: seq<TableColumns>)
    ensures |r| == |js|
    ensures forall k :: 0 <= k < |js| ==> r[k] == (js[k].table, js[k].columns)
  {
    seq(|js|, k requires 0 <= k < |js| => (js[k].table, js[k].columns))
  }

  function JoinSql(js: seq<JoinSpec>): (r: seq<string>)
    ensures |r| == |js|
    ensures forall k :: 0 <= k < |js| ==> r[k] == js[k].sql
  {
    seq(|js|, k requires 0 <= k < |js| => js[k].sql)
  }

  /** The parts the statement is assembled from. */
  datatype Plan = Plan(
    select: string,
    joins: seq<string>,
    where: Option<string>,
    group: string,
    order: string,
    limit: string,
    offset: string,
    tables: seq<TableColumns>)

  /** The filter an identifier asks for: the key among the quoted ids, or the
      key equal to the quoted id. */
  function IdFilter(schema: Schema, quote: Elem -> string, id: Identifier): Option<string>
  {
    match id
    case Ids(ids) => Some(schema.primaryKey + " IN (" + Join(",", QuotedIds(quote, ids)) + ")")
    case One(x) => Some(schema.tableName + "." + schema.primaryKey + " = " + quote(Scalar(x)))
    case _ => None
  }

  function QuotedIds(quote: Elem -> string, ids: seq<string>): (r: seq<string>)
    ensures |r| == |ids|
    ensures forall k :: 0 <= k < |ids| ==> r[k] == quote(Scalar(ids[k]))
  {
    seq(|ids|, k requires 0 <= k < |ids| => quote(Scalar(ids[k])))
  }

  /** The WHERE text: the identifier's filter, the conditions, or both joined
      with AND. */
  function WhereOf(schema: Schema, quote: Elem -> string, id: Identifier, opts: Options): Option<string>
  {
    var filter := IdFilter(schema, quote, id);
    match opts.conditions
    case None => filter
    case Some(c) => Some(if filter.Some? then filter.value + " AND " + Where(quote, c) else Where(quote, c))
  }

  /** The associations `include` names, in order. */
  function IncludedOf(schema: Schema, inflector: Inflector, opts: Options): seq<JoinSpec>
  {
    if opts.includes.Some?
    then Included(FreshAssociations(schema, inflector.pluralize), SplitOnSeparators(opts.includes.value))
    else []
  }

  /** The tables whose columns are selected: with `include`, the base table
      first, then each included association's table. */
  function TablesOf(schema: Schema, inflector: Inflector, opts: Options): seq<TableColumns>
  {
    if opts.includes.Some?
    then [(inflector.tableize(schema.className), schema.columns)] + JoinTables(IncludedOf(schema, inflector, opts))
    else []
  }

  function SelectOf(schema: Schema, inflector: Inflector, opts: Options): string
  {
    if opts.includes.Some? then Join(", ", SelectList(TablesOf(schema, inflector, opts)))
    else if opts.select.Some? then opts.select.value
    else "*"
  }

  /** A variable the source sets only from a truthy value: otherwise unset,
      which the statement treats like the empty string. */
  function WhenTruthy(s: string): (r: string)
    ensures Truthy(r) == Truthy(s) && (Truthy(s) ==> r == s)
  {
    if Truthy(s) then s else ""
  }

  function PlanOf(schema: Schema, inflector: Inflector, quote: Elem -> string, id: Identifier, opts: Options): Plan
  {
    Plan(SelectOf(schema, inflector, opts), JoinSql(IncludedOf(schema, inflector, opts)),
         WhereOf(schema, quote, id, opts), Sanitize(opts.group), Sanitize(opts.order),
         if id == First then "1" else WhenTruthy(Sanitize(opts.limit)), WhenTruthy(SanitizeOffset(opts.offset)),
         TablesOf(schema, inflector, opts))
  }

  // ---------------------------------------------------------------------
  // Clauses and the statement text
  // ---------------------------------------------------------------------

  datatype ClauseKind = SelectClause | FromClause | JoinClause | WhereClause | GroupClause | OrderClause | LimitClause | OffsetClause

  function Rank(k: ClauseKind): nat
  {
    match k
    case SelectClause => 0
    case FromClause => 1
    case JoinClause => 2
    case WhereClause => 3
    case GroupClause => 4
    case OrderClause => 5
    case LimitClause => 6
    case OffsetClause => 7
  }

  function Keyword(k: ClauseKind): string
  {
    match k
    case SelectClause => "SELECT "
    case FromClause => " FROM "
    case JoinClause => " "
    case WhereClause => " WHERE "
    case GroupClause => " GROUP BY "
    case OrderClause => " ORDER BY "
    case LimitClause => " LIMIT "
    case OffsetClause => " OFFSET "
  }

  datatype Clause = Clause(kind: ClauseKind, text: string)

  function Render(cs: seq<Clause>): string
    decreases |cs|
  {
    if cs == [] then ""
    else Render(cs[..|cs| - 1]) + Keyword(cs[|cs| - 1].kind) + cs[|cs| - 1].text
  }

  /** Every clause the statement can have, in the order the source appends
      them, each with whether it is appended. */
  function Candidates(schema: Schema, p: Plan): (r: seq<(bool, Clause)>)
    ensures |r| == 8
    ensures forall k :: 0 <= k < |r| ==> Rank(r[k].1.kind) == k
  {
    [(true, Clause(SelectClause, p.select)),
     (true, Clause(FromClause, schema.tableName)),
     (|p.joins| > 0, Clause(JoinClause, Join(" ", p.joins))),
     (p.where.Some?, Clause(WhereClause, if p.where.Some? then p.where.value else "")),
     (Truthy(p.group), Clause(GroupClause, p.group)),
     (Truthy(p.order), Clause(OrderClause, p.order)),
     (Truthy(p.limit), Clause(LimitClause, p.limit)),
     (Truthy(p.offset), Clause(OffsetClause, p.offset))]
  }

  /** The candidates that are appended, in order. */
  function Keep(cands: seq<(bool, Clause)>): seq<Clause>
    decreases |cands|
  {
    if cands == [] then []
    else Keep(cands[..|cands| - 1]) + (if cands[|cands| - 1].0 then [cands[|cands| - 1].1] else [])
  }

  /** The clauses of the statement. */
  function ClausesOf(schema: Schema, p: Plan): seq<Clause>
  {
    Keep(Candidates(schema, p))
  }

  function Clauses(schema: Schema, inflector: Inflector, quote: Elem -> string, id: Identifier, opts: Options): seq<Clause>
  {
    ClausesOf(schema, PlanOf(schema, inflector, quote, id, opts))
  }

  /** Ranks strictly increase along `cs`. */
  predicate Ordered(cs: seq<Clause>)
  {
    forall a, b :: 0 <= a < b < |cs| ==> Rank(cs[a].kind) < Rank(cs[b].kind)
  }

  /** Keeping candidates whose ranks are their positions yields strictly
      increasing ranks, all below the number of candidates. */
  lemma {:induction false} KeepOrdered(cands: seq<(bool, Clause)>)
    requires forall k :: 0 <= k < |cands| ==> Rank(cands[k].1.kind) == k
    ensures Ordered(Keep(cands))
    ensures forall a :: 0 <= a < |Keep(cands)| ==> Rank(Keep(cands)[a].kind) < |cands|
    decreases |cands|
  {
    if cands != [] {
      KeepOrdered(cands[..|cands| - 1]);
    }
  }

  /** A clause is kept exactly when some appended candidate is that clause. */
  lemma {:induction false} KeepMembers(cands: seq<(bool, Clause)>)
    ensures forall c :: c in Keep(cands) <==> exists k :: 0 <= k < |cands| && cands[k].0 && cands[k].1 == c
    decreases |cands|
  {
    if cands != [] {
      var n := |cands| - 1;
      KeepMembers(cands[..n]);
      forall c | c in Keep(cands) ensures exists k :: 0 <= k < |cands| && cands[k].0 && cands[k].1 == c {
        if c in Keep(cands[..n]) {
          var k :| 0 <= k < n && cands[..n][k].0 && cands[..n][k].1 == c;
          assert cands[k] == cands[..n][k];
        }
      }
      forall c | exists k :: 0 <= k < |cands| && cands[k].0 && cands[k].1 == c ensures c in Keep(cands) {
        var k :| 0 <= k < |cands| && cands[k].0 && cands[k].1 == c;
        if k < n {
          assert cands[..n][k] == cands[k];
        }
      }
    }
  }

  /** Clauses come in the fixed order SELECT, FROM, joins, WHERE, GROUP BY,
      ORDER BY, LIMIT, OFFSET, each at most once, starting with SELECT and FROM. */
  lemma ClauseOrder(schema: Schema, p: Plan)
    ensures var cs := ClausesOf(schema, p);
      |cs| >= 2 && cs[0] == Clause(SelectClause, p.select) && cs[1] == Clause(FromClause, schema.tableName) && Ordered(cs)
  {
    var cands := Candidates(schema, p);
    KeepOrdered(cands);
    assert Keep(cands[..1]) == [cands[0].1] by {
      assert cands[..1][..0] == [];
    }
    assert Keep(cands[..2]) == [cands[0].1, cands[1].1] by {
      assert cands[..2][..1] == cands[..1];
    }
    KeepPrefix(cands, 2);
  }

  /** What is kept from a prefix begins what is kept from the whole. */
  lemma {:induction false} KeepPrefix(cands: seq<(bool, Clause)>, n: nat)
    requires n <= |cands|
    ensures Keep(cands[..n]) <= Keep(cands)
    decreases |cands| - n
  {
    if n < |cands| {
      KeepPrefix(cands, n + 1);
      assert cands[..n + 1][..n] == cands[..n];
    } else {
      assert cands[..n] == cands;
    }
  }

  /** Which clauses a plan yields: the optional ones exactly when their text
      is truthy (joins: when there are any; WHERE: when there is one), each
      with its plan text. */
  lemma ClausePresence(schema: Schema, p: Plan)
    ensures var cs := ClausesOf(schema, p);
      && (forall c :: c in cs && c.kind == GroupClause ==> c.text == p.group && Truthy(p.group))
      && (forall c :: c in cs && c.kind == OrderClause ==> c.text == p.order && Truthy(p.order))
      && (forall c :: c in cs && c.kind == LimitClause ==> c.text == p.limit && Truthy(p.limit))
      && (forall c :: c in cs && c.kind == OffsetClause ==> c.text == p.offset && Truthy(p.offset))
      && (forall c :: c in cs && c.kind == WhereClause ==> p.where == Some(c.text))
      && (Truthy(p.group) ==> Clause(GroupClause, p.group) in cs)
      && (Truthy(p.order) ==> Clause(OrderClause, p.order) in cs)
      && (Truthy(p.limit) ==> Clause(LimitClause, p.limit) in cs)
      && (Truthy(p.offset) ==> Clause(OffsetClause, p.offset) in cs)
      && (p.where.Some? ==> Clause(WhereClause, p.where.value) in cs)
  {
    var cands := Candidates(schema, p);
    KeepMembers(cands);
    assert cands[4].1 == Clause(GroupClause, p.group) && cands[5].1 == Clause(OrderClause, p.order);
    assert cands[6].1 == Clause(LimitClause, p.limit) && cands[7].1 == Clause(OffsetClause, p.offset);
    assert cands[3].1.kind == WhereClause;
  }

  /** Sanitising: a GROUP BY, ORDER BY or LIMIT clause carries the option
      verbatim and the option passed the whitelist, an OFFSET clause carries a
      numeric option; a whitelisted (numeric) option that is truthy always
      gets its clause.  `'first'` forces `LIMIT 1` whatever the option says. */
  lemma ClausesSanitized(schema: Schema, inflector: Inflector, quote: Elem -> string, id: Identifier, opts: Options)
    ensures var cs := Clauses(schema, inflector, quote, id, opts);
      && (forall c :: c in cs && c.kind == GroupClause ==> opts.group == Some(c.text) && Whitelisted(c.text))
      && (forall c :: c in cs && c.kind == OrderClause ==> opts.order == Some(c.text) && Whitelisted(c.text))
      && (forall c :: c in cs && c.kind == OffsetClause ==> opts.offset == Some(c.text) && IsNumeric(c.text))
      && (forall c :: c in cs && c.kind == LimitClause ==>
            if id == First then c.text == "1" else opts.limit == Some(c.text) && Whitelisted(c.text))
      && (id == First ==> Clause(LimitClause, "1") in cs)
      && (opts.group.Some? && Whitelisted(opts.group.value) && Truthy(opts.group.value) ==> Clause(GroupClause, opts.group.value) in cs)
      && (opts.order.Some? && Whitelisted(opts.order.value) && Truthy(opts.order.value) ==> Clause(OrderClause, opts.order.value) in cs)
      && (opts.offset.Some? && IsNumeric(opts.offset.value) && Truthy(opts.offset.value) ==> Clause(OffsetClause, opts.offset.value) in cs)
      && (id != First && opts.limit.Some? && Whitelisted(opts.limit.value) && Truthy(opts.limit.value) ==> Clause(LimitClause, opts.limit.value) in cs)
  {
    var p := PlanOf(schema, inflector, quote, id, opts);
    ClausePresence(schema, p);
    assert p.group == Sanitize(opts.group) && p.order == Sanitize(opts.order);
    assert p.limit == (if id == First then "1" else WhenTruthy(Sanitize(opts.limit)));
    assert p.offset == WhenTruthy(SanitizeOffset(opts.offset));
  }

  /** The WHERE clause: the identifier's filter, then the conditions joined
      with AND; neither gives no WHERE clause. */
  lemma WhereCombines(schema: Schema, inflector: Inflector, quote: Elem -> string, id: Identifier, opts: Options)
    ensures var cs := Clauses(schema, inflector, quote, id, opts);
      var filter := IdFilter(schema, quote, id);
      && (opts.conditions.Some? && filter.Some? ==> Clause(WhereClause, filter.value + " AND " + Where(quote, opts.conditions.value)) in cs)
      && (opts.conditions.Some? && filter.None? ==> Clause(WhereClause, Where(quote, opts.conditions.value)) in cs)
      && (opts.conditions.None? && filter.Some? ==> Clause(WhereClause, filter.value) in cs)
      && ((opts.conditions.None? && (id == First || id == All)) <==> forall c :: c in cs ==> c.kind != WhereClause)
  {
    var p := PlanOf(schema, inflector, quote, id, opts);
    ClausePresence(schema, p);
    assert p.where == WhereOf(schema, quote, id, opts);
  }

  /** Rendering a prefix of the clauses gives a prefix of the text. */
  lemma {:induction false} RenderPrefix(cs: seq<Clause>, n: nat)
    requires n <= |cs|
    ensures Render(cs[..n]) <= Render(cs)
    decreases |cs| - n
  {
    if n < |cs| {
      RenderPrefix(cs, n + 1);
      assert cs[..n + 1][..n] == cs[..n];
    } else {
      assert cs[..n] == cs;
    }
  }

  /** Every statement begins `SELECT <select> FROM <table>`. */
  lemma QueryBegins(schema: Schema, p: Plan)
    ensures "SELECT " + p.select + " FROM " + schema.tableName <= Render(ClausesOf(schema, p))
  {
    var cs := ClausesOf(schema, p);
    ClauseOrder(schema, p);
    RenderPrefix(cs, 2);
    assert cs[..2][..1][..0] == [];
    assert Render(cs[..2][..1]) == "SELECT " + p.select;
    assert cs[..2][..1] == [cs[0]];
  }

  /** One step of the statement: candidate `k` adds its keyword and text
      when it is present, and nothing otherwise. */
  lemma RenderStep(cands: seq<(bool, Clause)>, k: nat)
    requires k < |cands|
    ensures Render(Keep(cands[..k + 1]))
         == Render(Keep(cands[..k])) + (if cands[k].0 then Keyword(cands[k].1.kind) + cands[k].1.text else "")
  {
    assert cands[..k + 1][..k] == cands[..k];
    var prev := Keep(cands[..k]);
    if cands[k].0 {
      assert (prev + [cands[k].1])[..|prev|] == prev;
    } else {
      assert prev + [] == prev;
    }
  }

  /** The statement starts with the SELECT and FROM candidates. */
  lemma RenderHead(cands: seq<(bool, Clause)>)
    requires |cands| >= 2 && cands[0].0 && cands[1].0
    ensures Render(Keep(cands[..2]))
         == Keyword(cands[0].1.kind) + cands[0].1.text + Keyword(cands[1].1.kind) + cands[1].1.text
  {
    assert cands[..1][..0] == [];
    RenderStep(cands, 0);
    RenderStep(cands, 1);
  }

  /** No options at all. */
  const NoOptions := Options(None, None, None, None, None, None, None)

  /** With no options the statement selects `*`, joins nothing, and has no
      GROUP BY, ORDER BY or OFFSET; only `'first'` sets a limit. */
  lemma BarePlan(schema: Schema, inflector: Inflector, quote: Elem -> string, id: Identifier)
    ensures var p := PlanOf(schema, inflector, quote, id, NoOptions);
      && p.select == "*" && p.joins == [] && p.where == IdFilter(schema, quote, id)
      && p.group == "" && p.order == "" && p.offset == ""
      && p.limit == (if id == First then "1" else "")
  {
    assert IncludedOf(schema, inflector, NoOptions) == [];
    assert WhereOf(schema, quote, id, NoOptions) == IdFilter(schema, quote, id);
  }

  /** A plan with nothing optional but its WHERE and LIMIT renders as
      SELECT, FROM, then those two when present. */
  lemma RenderPlain(schema: Schema, p: Plan)
    requires p.joins == [] && p.group == "" && p.order == "" && p.offset == ""
    ensures Render(ClausesOf(schema, p))
         == "SELECT " + p.select + " FROM " + schema.tableName
            + (if p.where.Some? then " WHERE " + p.where.value else "")
            + (if Truthy(p.limit) then " LIMIT " + p.limit else "")
  {
    var cands := Candidates(schema, p);
    RenderTwoOptional(cands);
  }

  /** The last of the first `k` candidates adds its keyword and text when
      present, nothing otherwise. */
  lemma RenderNext(cands: seq<(bool, Clause)>, k: nat)
    requires 0 < k <= |cands|
    ensures Render(Keep(cands[..k])) == Add(Render(Keep(cands[..k - 1])), cands[k - 1])
  {
    assert cands[..k][..k - 1] == cands[..k - 1];
    var prev := Keep(cands[..k - 1]);
    if cands[k - 1].0 {
      assert (prev + [cands[k - 1].1])[..|prev|] == prev;
    } else {
      assert prev + [] == prev;
    }
  }

  /** An absent candidate adds nothing. */
  lemma RenderSkip(cands: seq<(bool, Clause)>, k: nat)
    requires k < |cands| && !cands[k].0
    ensures Render(Keep(cands[..k + 1])) == Render(Keep(cands[..k]))
  {
    assert cands[..k + 1][..k] == cands[..k];
    assert Keep(cands[..k]) + [] == Keep(cands[..k]);
  }

  /** Eight candidates of which only the SELECT and FROM pair and candidates
      3 and 6 may be present. */
  lemma RenderTwoOptional(cands: seq<(bool, Clause)>)
    requires |cands| == 8 && cands[0].0 && cands[1].0
    requires !cands[2].0 && !cands[4].0 && !cands[5].0 && !cands[7].0
    ensures Render(Keep(cands))
         == Keyword(cands[0].1.kind) + cands[0].1.text + Keyword(cands[1].1.kind) + cands[1].1.text
            + (if cands[3].0 then Keyword(cands[3].1.kind) + cands[3].1.text else "")
            + (if cands[6].0 then Keyword(cands[6].1.kind) + cands[6].1.text else "")
  {
    RenderHead(cands);
    RenderSkip(cands, 2);
    RenderStep(cands, 3);
    RenderSkip(cands, 4);
    RenderSkip(cands, 5);
    RenderStep(cands, 6);
    RenderSkip(cands, 7);
    assert cands[..8] == cands;
  }

  /** `find('all')` with no options selects the whole table. */
  lemma BareAll(schema: Schema, inflector: Inflector, quote: Elem -> string)
    ensures Render(Clauses(schema, inflector, quote, All, NoOptions)) == "SELECT * FROM " + schema.tableName
  {
    var p := PlanOf(schema, inflector, quote, All, NoOptions);
    BarePlan(schema, inflector, quote, All);
    RenderPlain(schema, p);
    var head := "SELECT " + p.select + " FROM " + schema.tableName;
    assert head == "SELECT * FROM " + schema.tableName by {
      assert "SELECT " + p.select + " FROM " == "SELECT * FROM ";
    }
    assert head + "" + "" == head;
  }

  /** `find('first')` with no options selects the first row. */
  lemma BareFirst(schema: Schema, inflector: Inflector, quote: Elem -> string)
    ensures Render(Clauses(schema, inflector, quote, First, NoOptions)) == "SELECT * FROM " + schema.tableName + " LIMIT 1"
  {
    var p := PlanOf(schema, inflector, quote, First, NoOptions);
    BarePlan(schema, inflector, quote, First);
    RenderPlain(schema, p);
    var head := "SELECT " + p.select + " FROM " + schema.tableName;
    assert head == "SELECT * FROM " + schema.tableName by {
      assert "SELECT " + p.select + " FROM " == "SELECT * FROM ";
    }
    assert head + "" + (" LIMIT " + p.limit) == head + " LIMIT 1" by {
      assert " LIMIT " + p.limit == " LIMIT 1";
    }
  }

  /** `find(x)` with no options selects the row whose key equals the quoted `x`. */
  lemma BareOne(schema: Schema, inflector: Inflector, quote: Elem -> string, x: string)
    ensures Render(Clauses(schema, inflector, quote, One(x), NoOptions))
         == "SELECT * FROM " + schema.tableName + " WHERE " + (schema.tableName + "." + schema.primaryKey + " = " + quote(Scalar(x)))
  {
    var p := PlanOf(schema, inflector, quote, One(x), NoOptions);
    BarePlan(schema, inflector, quote, One(x));
    RenderWhereOnly(schema, p, schema.tableName + "." + schema.primaryKey + " = " + quote(Scalar(x)));
  }

  /** A plan that selects `*` with a WHERE text and nothing else optional
      renders as SELECT, FROM and WHERE. */
  lemma RenderWhereOnly(schema: Schema, p: Plan, w: string)
    requires p.select == "*" && p.where == Some(w) && !Truthy(p.limit)
    requires p.joins == [] && p.group == "" && p.order == "" && p.offset == ""
    ensures Render(ClausesOf(schema, p)) == "SELECT * FROM " + schema.tableName + " WHERE " + w
  {
    RenderPlain(schema, p);
    var head := "SELECT " + p.select + " FROM " + schema.tableName;
    assert head == "SELECT * FROM " + schema.tableName by {
      assert "SELECT " + p.select + " FROM " == "SELECT * FROM ";
    }
    AppendAssoc(head, " WHERE ", w);
    assert head + (" WHERE " + w) + "" == head + (" WHERE " + w);
  }

  // ---------------------------------------------------------------------
  // generate_find_query
  // ---------------------------------------------------------------------

  /** Each id quoted, in order. */
  method QuoteIds(quote: Elem -> string, ids: seq<string>) returns (qs: seq<string>)
    ensures qs == QuotedIds(quote, ids)
  {
    qs := [];
    for i := 0 to |ids|
      invariant |qs| == i
      invariant forall k :: 0 <= k < i ==> qs[k] == quote(Scalar(ids[k]))
    {
      qs := qs + [quote(Scalar(ids[i]))];
    }
  }

  /** The joins and the tables of the named associations that exist, in the
      order named. */
  method IncludeJoins(assocs: map<string, Association>, names: seq<string>) returns (joins: seq<string>, tables: seq<TableColumns>)
    ensures joins == JoinSql(Included(assocs, names))
    ensures tables == JoinTables(Included(assocs, names))
  {
    joins, tables := [], [];
    ghost var js: seq<JoinSpec> := [];
    for i := 0 to |names|
      invariant js == Included(assocs, names[..i])
      invariant joins == JoinSql(js) && tables == JoinTables(js)
    {
      IncludedStep(assocs, names, i);
      if names[i] in assocs {
        var j := assocs[names[i]].join;
        joins := joins + [j.sql];
        tables := tables + [(j.table, j.columns)];
        assert JoinSql(js + [j]) == joins;
        assert JoinTables(js + [j]) == tables;
        js := js + [j];
      }
    }
    assert names[..|names|] == names;
  }

  /** Column `j` extends the selects and the lookup of table `i` by one. */
  lemma TableStep(i: nat, table: string, cols: seq<string>, j: nat)
    requires j < |cols|
    ensures TableSelects(i, table, cols[..j + 1]) == TableSelects(i, table, cols[..j]) + [table + ".`" + cols[j] + "` AS " + Alias(i, j)]
    ensures TableLookup(i, table, cols[..j + 1]) == TableLookup(i, table, cols[..j])[Alias(i, j) := (table, cols[j])]
  {
    assert cols[..j + 1][..j] == cols[..j];
  }

  /** Table `i` extends the select list and the lookup by its own. */
  lemma SelectStep(tables: seq<TableColumns>, i: nat)
    requires i < |tables|
    ensures SelectList(tables[..i + 1]) == SelectList(tables[..i]) + TableSelects(i, tables[i].0, tables[i].1)
    ensures LookupOf(tables[..i + 1]) == LookupOf(tables[..i]) + TableLookup(i, tables[i].0, tables[i].1)
  {
    assert tables[..i + 1][..i] == tables[..i];
  }

  /** The select expressions and lookup entries of table `i`. */
  method SelectTable(i: nat, table: string, cols: seq<string>) returns (selects: seq<string>, lookup: map<string, (string, string)>)
    ensures selects == TableSelects(i, table, cols)
    ensures lookup == TableLookup(i, table, cols)
  {
    selects, lookup := [], map[];
    for j := 0 to |cols|
      invariant selects == TableSelects(i, table, cols[..j])
      invariant lookup == TableLookup(i, table, cols[..j])
    {
      TableStep(i, table, cols, j);
      selects := selects + [table + ".`" + cols[j] + "` AS " + Alias(i, j)];
      lookup := lookup[Alias(i, j) := (table, cols[j])];
    }
    assert cols[..|cols|] == cols;
  }

  /** The select expressions and the lookup of every table. */
  method SelectColumns(tables: seq<TableColumns>) returns (selects: seq<string>, lookup: map<string, (string, string)>)
    ensures selects == SelectList(tables)
    ensures lookup == LookupOf(tables)
  {
    selects, lookup := [], map[];
    for i := 0 to |tables|
      invariant selects == SelectList(tables[..i])
      invariant lookup == LookupOf(tables[..i])
    {
      SelectStep(tables, i);
      var s, l := SelectTable(i, tables[i].0, tables[i].1);
      selects := selects + s;
      lookup := lookup + l;
    }
    assert tables[..|tables|] == tables;
  }

  /** The text so far, followed by the candidate's keyword and text when
      it is present. */
  function Add(query: string, cand: (bool, Clause)): string
  {
    if cand.0 then query + Keyword(cand.1.kind) + cand.1.text else query
  }

  /** The text of the SELECT and FROM pair followed by candidates 2 up to
      `k`, each added when present. */
  function Appended(cands: seq<(bool, Clause)>, k: nat): string
    requires 2 <= k <= |cands|
    decreases k
  {
    if k == 2 then Keyword(cands[0].1.kind) + cands[0].1.text + Keyword(cands[1].1.kind) + cands[1].1.text
    else Add(Appended(cands, k - 1), cands[k - 1])
  }

  /** Adding the eight candidates one at a time renders the kept clauses. */
  lemma RenderAppended(cands: seq<(bool, Clause)>)
    requires |cands| == 8 && cands[0].0 && cands[1].0
    ensures Render(Keep(cands)) == Appended(cands, 8)
  {
    AppendedHead(cands);
    AppendedStep(cands, 3);
    AppendedStep(cands, 4);
    AppendedStep(cands, 5);
    AppendedStep(cands, 6);
    AppendedStep(cands, 7);
    AppendedStep(cands, 8);
    assert cands[..8] == cands;
  }

  /** The SELECT and FROM pair renders as the text both start from. */
  lemma AppendedHead(cands: seq<(bool, Clause)>)
    requires |cands| >= 2 && cands[0].0 && cands[1].0
    ensures Render(Keep(cands[..2])) == Appended(cands, 2)
  {
    RenderHead(cands);
  }

  /** One more candidate extends both sides alike. */
  lemma AppendedStep(cands: seq<(bool, Clause)>, k: nat)
    requires 2 < k <= |cands|
    requires Render(Keep(cands[..k - 1])) == Appended(cands, k - 1)
    ensures Render(Keep(cands[..k])) == Appended(cands, k)
  {
    RenderNext(cands, k);
  }

  /** The statement text: SELECT and FROM, then the joins, WHERE, GROUP BY,
      ORDER BY, LIMIT and OFFSET clauses, each only when present. */
  method Assemble(schema: Schema, p: Plan) returns (query: string)
    ensures query == Render(ClausesOf(schema, p))
  {
    query := AssembleHead(schema, p);
    query := AssembleTail(schema, p, query);
    ghost var cands := Candidates(schema, p);
    RenderAppended(cands);
  }

  /** `SELECT <select> FROM <table>`, the joins if any and the WHERE clause
      if there is one. */
  method AssembleHead(schema: Schema, p: Plan) returns (query: string)
    ensures query == Appended(Candidates(schema, p), 4)
  {
    ghost var cands := Candidates(schema, p);
    query := "SELECT " + p.select + " FROM " + schema.tableName;
    assert query == Appended(cands, 2);
    if |p.joins| > 0 {
      query := query + " " + Join(" ", p.joins);
    }
    assert query == Appended(cands, 3);
    if p.where.Some? {
      query := query + " WHERE " + p.where.value;
    }
  }

  /** The GROUP BY, ORDER BY, LIMIT and OFFSET clauses, each only when its
      text is truthy. */
  method AssembleTail(schema: Schema, p: Plan, head: string) returns (query: string)
    requires head == Appended(Candidates(schema, p), 4)
    ensures query == Appended(Candidates(schema, p), 8)
  {
    ghost var cands := Candidates(schema, p);
    query := head;
    if Truthy(p.group) {
      query := query + " GROUP BY " + p.group;
    }
    assert query == Appended(cands, 5);
    if Truthy(p.order) {
      query := query + " ORDER BY " + p.order;
    }
    assert query == Appended(cands, 6);
    if Truthy(p.limit) {
      query := query + " LIMIT " + p.limit;
    }
    assert query == Appended(cands, 7);
    if Truthy(p.offset) {
      query := query + " OFFSET " + p.offset;
    }
  }

  /** The WHERE text from the quoted identifier and the conditions, and the
      LIMIT `'first'` sets. */
  method FindWhere(schema: Schema, quote: Elem -> string, id: Identifier, opts: Options)
    returns (where: Option<string>, limit: Option<string>)
    ensures where == WhereOf(schema, quote, id, opts)
    ensures limit == if id == First then Some("1") else None
  {
    where, limit := None, None;
    if id.Ids? {
      var qs := QuoteIds(quote, id.ids);
      where := Some(schema.primaryKey + " IN (" + Join(",", qs) + ")");
    } else if id == First {
      limit := Some("1");
    } else if id.One? {
      where := Some(schema.tableName + "." + schema.primaryKey + " = " + quote(Scalar(id.id)));
    }
    assert where == IdFilter(schema, quote, id);
    if opts.conditions.Some? {
      var cond := ConvertConditionsToWhere(quote, opts.conditions.value);
      where := Some(if where.Some? && where.value != "" then where.value + " AND " + cond else cond);
    }
  }

  /** Eager loading: the joins of the named associations, the base table
      and theirs, every select expression and the alias lookup. */
  method Include(schema: Schema, inflector: Inflector, opts: Options)
    returns (joins: seq<string>, tables: seq<TableColumns>, selects: seq<string>, lookup: map<string, (string, string)>)
    requires opts.includes.Some?
    ensures joins == JoinSql(IncludedOf(schema, inflector, opts))
    ensures tables == TablesOf(schema, inflector, opts)
    ensures selects == SelectList(tables)
    ensures lookup == LookupOf(tables)
  {
    var assocs := FreshAssociations(schema, inflector.pluralize);
    var more;
    joins, more := IncludeJoins(assocs, SplitOnSeparators(opts.includes.value));
    tables := [(inflector.tableize(schema.className), schema.columns)] + more;
    selects, lookup := SelectColumns(tables);
  }

  /** `generate_find_query`: the statement for `id` and `opts`, and the
      lookup from column aliases back to tables and columns. */
  method GenerateFindQuery(schema: Schema, inflector: Inflector, quote: Elem -> string, id: Identifier, opts: Options)
    returns (query: string, lookup: map<string, (string, string)>)
    ensures query == Render(Clauses(schema, inflector, quote, id, opts))
    ensures lookup == LookupOf(TablesOf(schema, inflector, opts))
  {
    var group, order := Sanitize(opts.group), Sanitize(opts.order);
    var where, firstLimit := FindWhere(schema, quote, id, opts);
    var limit, offset := LimitOffset(id, opts, firstLimit);
    var select, joins, tables;
    select, joins, tables, lookup := FindSelect(schema, inflector, opts);
    var p := Plan(select, joins, where, group, order, limit, offset, tables);
    assert p == PlanOf(schema, inflector, quote, id, opts);
    query := Assemble(schema, p);
  }

  /** The LIMIT and OFFSET texts: an offset or limit option counts only when
      truthy once sanitized, and `'first'` keeps its limit of 1. */
  method LimitOffset(id: Identifier, opts: Options, firstLimit: Option<string>) returns (limit: string, offset: string)
    requires firstLimit == (if id == First then Some("1") else None)
    ensures limit == (if id == First then "1" else WhenTruthy(Sanitize(opts.limit)))
    ensures offset == WhenTruthy(SanitizeOffset(opts.offset))
  {
    var optLimit, optOffset := Sanitize(opts.limit), SanitizeOffset(opts.offset);
    var l, o := firstLimit, None;
    if Truthy(optOffset) {
      o := Some(optOffset);
    }
    if Truthy(optLimit) && l.None? {
      l := Some(optLimit);
    }
    limit := if l.Some? then l.value else "";
    offset := if o.Some? then o.value else "";
  }

  /** The select list, joins, joined tables and lookup: `*` and nothing
      joined without `include`, the aliased columns of every table with it;
      an explicit `select` option still wins without `include`. */
  method FindSelect(schema: Schema, inflector: Inflector, opts: Options)
    returns (select: string, joins: seq<string>, tables: seq<TableColumns>, lookup: map<string, (string, string)>)
    ensures select == SelectOf(schema, inflector, opts)
    ensures joins == JoinSql(IncludedOf(schema, inflector, opts))
    ensures tables == TablesOf(schema, inflector, opts)
    ensures lookup == LookupOf(tables)
  {
    select := "*";
    if opts.select.Some? {
      select := opts.select.value;
    }
    joins, tables, lookup := [], [], map[];
    if opts.includes.Some? {
      var selects;
      joins, tables, selects, lookup := Include(schema, inflector, opts);
      select := Join(", ", selects);
    }
  }
}
