/** The state of one ActiveRecord model instance as a value, and the
    specification of every state change the `Model` class makes: property
    reads and writes (`__get`, `__set`), construction, method dispatch
    (`__call`), `save`, `destroy` and `update_attributes`. */
module Records {
  import opened Values
  import opened Strings

  /** The mutable part of a model instance.  `order` lists the association
      names in the order they were first registered (PHP array order). */
  datatype Instance = Instance(
    attributes: map<string, Value>,
    associations: map<string, Association>,
    order: seq<string>,
    isModified: bool,
    frozen: bool,
    newRecord: bool)

  /** An instance before its constructor body has run. */
  function Blank(): Instance
  {
    Instance(map[], map[], [], false, false, true)
  }

  /** Attributes are only ever stored under column names, associations only
      under names that are not columns, and `order` lists each association
      name exactly once. */
  ghost predicate Consistent(schema: Schema, s: Instance)
  {
    && (forall n :: n in s.attributes ==> n in schema.columns)
    && (forall n :: n in s.associations ==> n !in schema.columns)
    && (forall n :: n in s.associations <==> n in s.order)
    && (forall i, j :: 0 <= i < j < |s.order| ==> s.order[i] != s.order[j])
  }

  // ---------------------------------------------------------------------
  // Property reads and writes
  // ---------------------------------------------------------------------

  /** What a property read resolves to: a value, or a delegation to an
      association's `get` or `get_ids`. */
  datatype Access = Value(v: Value) | AssocGet(assoc: string) | AssocGetIds(assoc: string)

  /** `__get`. */
  function Read(schema: Schema, pluralize: string -> string, s: Instance, name: string): Result<Access>
  {
    if name in s.attributes then Ok(Value(s.attributes[name]))
    else if name in s.associations then Ok(AssocGet(name))
    else if name in schema.columns then Ok(Value(Null))
    else
      match IdsPrefix(name)
      case Some(stem) =>
        var a := pluralize(stem);
        if a in s.associations && s.associations[a].kind == HasMany then Ok(AssocGetIds(a))
        else Err(AttributeNotFound(name))
      case None => Err(AttributeNotFound(name))
  }

  /** What a successful property write did: stored a column, registered an
      association, or delegated to an association's `set` or `set_ids`. */
  datatype Effect =
    | Stored
    | Registered
    | AssocSet(assoc: string, value: Value)
    | AssocSetIds(assoc: string, value: Value)

  /** `__set`: the new state and the outcome. */
  function Write(schema: Schema, pluralize: string -> string, s: Instance, name: string, v: Value): (Instance, Result<Effect>)
  {
    if s.frozen then (s, Err(ObjectFrozen(name)))
    else if name in schema.columns then
      (s.(attributes := s.attributes[name := v], isModified := true), Ok(Stored))
    else if v.Assoc? then
      (s.(associations := s.associations[name := v.a],
          order := if name in s.associations then s.order else s.order + [name]),
       Ok(Registered))
    else if name in s.associations then (s, Ok(AssocSet(name, v)))
    else
      match IdsPrefix(name)
      case Some(stem) =>
        var a := pluralize(stem);
        if a in s.associations && s.associations[a].kind == HasMany then (s, Ok(AssocSetIds(a, v)))
        else (s, Err(AttributeNotFound(name)))
      case None => (s, Err(AttributeNotFound(name)))
  }

  /** The read priority: stored attribute, association, unset column,
      `<x>_ids` of a has-many association `pluralize(x)`, and otherwise
      AttributeNotFound.  Each outcome is characterised both ways. */
  lemma ReadPriority(schema: Schema, pluralize: string -> string, s: Instance, name: string)
    ensures name in s.attributes ==> Read(schema, pluralize, s, name) == Ok(Value(s.attributes[name]))
    ensures Read(schema, pluralize, s, name) == Ok(AssocGet(name))
            <==> name !in s.attributes && name in s.associations
    ensures Read(schema, pluralize, s, name) == Ok(Value(Null)) && name !in s.attributes
            <==> name !in s.associations && name in schema.columns && name !in s.attributes
    ensures Read(schema, pluralize, s, name).Ok? && Read(schema, pluralize, s, name).value.AssocGetIds?
            <==> name !in s.attributes && name !in s.associations && name !in schema.columns
                 && IdsPrefix(name).Some?
                 && pluralize(IdsPrefix(name).value) in s.associations
                 && s.associations[pluralize(IdsPrefix(name).value)].kind == HasMany
    ensures Read(schema, pluralize, s, name).Err?
            <==> name !in s.attributes && name !in s.associations && name !in schema.columns
                 && !(IdsPrefix(name).Some?
                      && pluralize(IdsPrefix(name).value) in s.associations
                      && s.associations[pluralize(IdsPrefix(name).value)].kind == HasMany)
  {
  }

  /** On a consistent instance a column read never fails and never delegates:
      it yields the stored value or null. */
  lemma ColumnRead(schema: Schema, pluralize: string -> string, s: Instance, name: string)
    requires Consistent(schema, s)
    requires name in schema.columns
    ensures Read(schema, pluralize, s, name) ==
            Ok(Value(if name in s.attributes then s.attributes[name] else Null))
  {
  }

  /** Writing a column of a live instance stores the value, marks the instance
      modified and touches nothing else; reading the name back gives the value. */
  lemma WriteThenRead(schema: Schema, pluralize: string -> string, s: Instance, name: string, v: Value)
    requires !s.frozen && name in schema.columns
    ensures var (t, r) := Write(schema, pluralize, s, name, v);
      && r == Ok(Stored)
      && t.attributes == s.attributes[name := v]
      && t.isModified
      && t.associations == s.associations && t.order == s.order
      && t.frozen == s.frozen && t.newRecord == s.newRecord
      && Read(schema, pluralize, t, name) == Ok(Value(v))
  {
  }

  /** A frozen instance refuses every write before changing anything. */
  lemma FrozenRefusesWrites(schema: Schema, pluralize: string -> string, s: Instance, name: string, v: Value)
    requires s.frozen
    ensures Write(schema, pluralize, s, name, v) == (s, Err(ObjectFrozen(name)))
  {
  }

  /** A name that is no column, no association and no has-many `_ids`
      accessor, written with a value that is no association, is refused. */
  lemma UnknownNameRefused(schema: Schema, pluralize: string -> string, s: Instance, name: string, v: Value)
    requires !s.frozen && name !in schema.columns && !v.Assoc? && name !in s.associations
    requires IdsPrefix(name).Some? ==> var a := pluralize(IdsPrefix(name).value);
               !(a in s.associations && s.associations[a].kind == HasMany)
    ensures Write(schema, pluralize, s, name, v) == (s, Err(AttributeNotFound(name)))
  {
  }

  /** Every write keeps the instance consistent and never changes the
      lifecycle flags `frozen` and `newRecord`. */
  lemma WriteKeepsConsistent(schema: Schema, pluralize: string -> string, s: Instance, name: string, v: Value)
    requires Consistent(schema, s)
    ensures var t := Write(schema, pluralize, s, name, v).0;
      Consistent(schema, t) && t.frozen == s.frozen && t.newRecord == s.newRecord
  {
    var t := Write(schema, pluralize, s, name, v).0;
    if !s.frozen && name !in schema.columns && v.Assoc? && name !in s.associations {
      forall i, j | 0 <= i < j < |t.order| ensures t.order[i] != t.order[j] {
        if j == |t.order| - 1 {
          assert s.order[i] in s.associations;
        }
      }
    }
  }

  // ---------------------------------------------------------------------
  // A sequence of writes, construction, update_attributes
  // ---------------------------------------------------------------------

  /** Writes `pairs` in order, stopping at the first refused write. */
  function WriteAll(schema: Schema, pluralize: string -> string, s: Instance, pairs: seq<(string, Value)>): (Instance, Option<Error>)
    decreases |pairs|
  {
    if pairs == [] then (s, None)
    else
      var (t, e) := WriteAll(schema, pluralize, s, pairs[..|pairs| - 1]);
      if e.Some? then (t, e)
      else
        var (u, r) := Write(schema, pluralize, t, pairs[|pairs| - 1].0, pairs[|pairs| - 1].1);
        (u, if r.Err? then Some(r.error) else None)
  }

  /** Once a write has been refused, the later pairs are not written. */
  lemma {:induction false} WriteAllStop(schema: Schema, pluralize: string -> string, s: Instance, pairs: seq<(string, Value)>, i: nat)
    requires 0 < i <= |pairs| && WriteAll(schema, pluralize, s, pairs[..i]).1.Some?
    ensures WriteAll(schema, pluralize, s, pairs) == WriteAll(schema, pluralize, s, pairs[..i])
    decreases |pairs| - i
  {
    if i < |pairs| {
      assert pairs[..i + 1][..i] == pairs[..i];
      WriteAllStop(schema, pluralize, s, pairs, i + 1);
    } else {
      assert pairs[..i] == pairs;
    }
  }

  /** The map a PHP array of key/value pairs denotes: a later key wins. */
  function MapOf(pairs: seq<(string, Value)>): map<string, Value>
    decreases |pairs|
  {
    if pairs == [] then map[]
    else MapOf(pairs[..|pairs| - 1])[pairs[|pairs| - 1].0 := pairs[|pairs| - 1].1]
  }

  /** Writing only column names to a live instance succeeds and merges the
      pairs into the attributes, later pairs winning. */
  lemma {:induction false} WriteAllColumns(schema: Schema, pluralize: string -> string, s: Instance, pairs: seq<(string, Value)>)
    requires !s.frozen
    requires forall k :: 0 <= k < |pairs| ==> pairs[k].0 in schema.columns
    ensures var (t, e) := WriteAll(schema, pluralize, s, pairs);
      && e == None
      && t == s.(attributes := s.attributes + MapOf(pairs), isModified := s.isModified || pairs != [])
    decreases |pairs|
  {
    if pairs != [] {
      WriteAllColumns(schema, pluralize, s, pairs[..|pairs| - 1]);
    }
  }

  /** A sequence of writes keeps the instance consistent. */
  lemma {:induction false} WriteAllKeepsConsistent(schema: Schema, pluralize: string -> string, s: Instance, pairs: seq<(string, Value)>)
    requires Consistent(schema, s)
    ensures var t := WriteAll(schema, pluralize, s, pairs).0;
      Consistent(schema, t) && t.frozen == s.frozen && t.newRecord == s.newRecord
    decreases |pairs|
  {
    if pairs != [] {
      WriteAllKeepsConsistent(schema, pluralize, s, pairs[..|pairs| - 1]);
      var t := WriteAll(schema, pluralize, s, pairs[..|pairs| - 1]).0;
      WriteKeepsConsistent(schema, pluralize, t, pairs[|pairs| - 1].0, pairs[|pairs| - 1].1);
    }
  }

  /** The association objects the constructor assigns for one kind, as the
      property writes it performs. */
  function Registrations(kind: AssocKind, decls: seq<AssocDecl>): (r: seq<(string, Value)>)
    ensures |r| == |decls|
    ensures forall k :: 0 <= k < |decls| ==> r[k].0 == decls[k].name && r[k].1.Assoc?
  {
    seq(|decls|, k requires 0 <= k < |decls| =>
      (decls[k].name, Assoc(Association(kind, decls[k].name, decls[k].options, decls[k].join))))
  }

  /** All association writes of the constructor: belongs_to, has_many, has_one. */
  function AllRegistrations(schema: Schema): seq<(string, Value)>
  {
    Registrations(BelongsTo, schema.belongsTo)
    + Registrations(HasMany, schema.hasMany)
    + Registrations(HasOne, schema.hasOne)
  }

  /** `__construct($params, $new_record, $is_modified)`: register the declared
      associations, then, when `params` is an array, write each of its pairs
      and set the two flags. */
  function Construct(schema: Schema, pluralize: string -> string, params: Option<seq<(string, Value)>>,
                     newRecord: bool, isModified: bool): (Instance, Option<Error>)
  {
    var (s, e) := WriteAll(schema, pluralize, Blank(), AllRegistrations(schema));
    if e.Some? then (s, e)
    else
      match params
      case None => (s, None)
      case Some(ps) =>
        var (t, e') := WriteAll(schema, pluralize, s, ps);
        if e'.Some? then (t, e')
        else (t.(isModified := isModified, newRecord := newRecord), None)
  }

  /** Writes whose values are association objects never fail on a live instance. */
  lemma {:induction false} RegistrationsSucceed(schema: Schema, pluralize: string -> string, s: Instance, pairs: seq<(string, Value)>)
    requires !s.frozen
    requires forall k :: 0 <= k < |pairs| ==> pairs[k].1.Assoc?
    ensures WriteAll(schema, pluralize, s, pairs).1 == None
    ensures !WriteAll(schema, pluralize, s, pairs).0.frozen
    decreases |pairs|
  {
    if pairs != [] {
      RegistrationsSucceed(schema, pluralize, s, pairs[..|pairs| - 1]);
    }
  }

  /** Building an instance from a row of column values, as the finder does:
      construction succeeds, the attributes are exactly the row, the flags are
      those passed, and the instance is consistent and live. */
  lemma ConstructFromRow(schema: Schema, pluralize: string -> string, row: seq<(string, Value)>,
                         newRecord: bool, isModified: bool)
    requires forall k :: 0 <= k < |row| ==> row[k].0 in schema.columns
    ensures var (s, e) := Construct(schema, pluralize, Some(row), newRecord, isModified);
      && e == None
      && Consistent(schema, s)
      && !s.frozen && s.newRecord == newRecord && s.isModified == isModified
      && s.attributes.Keys == MapOf(row).Keys + (set k | 0 <= k < |AllRegistrations(schema)|
                                                  && AllRegistrations(schema)[k].0 in schema.columns
                                                  :: AllRegistrations(schema)[k].0)
      && forall c :: c in MapOf(row) ==> s.attributes[c] == MapOf(row)[c]
  {
    var regs := AllRegistrations(schema);
    assert forall k :: 0 <= k < |regs| ==> regs[k].1.Assoc?;
    RegistrationsSucceed(schema, pluralize, Blank(), regs);
    var s := WriteAll(schema, pluralize, Blank(), regs).0;
    WriteAllKeepsConsistent(schema, pluralize, Blank(), regs);
    RegisteredAttributes(schema, pluralize, Blank(), regs);
    WriteAllColumns(schema, pluralize, s, row);
    WriteAllKeepsConsistent(schema, pluralize, s, row);
  }

  /** Registering associations stores as attributes exactly those whose names
      are columns (an association declared under a column name is shadowed). */
  lemma {:induction false} RegisteredAttributes(schema: Schema, pluralize: string -> string, s: Instance, pairs: seq<(string, Value)>)
    requires !s.frozen
    requires forall k :: 0 <= k < |pairs| ==> pairs[k].1.Assoc?
    ensures WriteAll(schema, pluralize, s, pairs).0.attributes.Keys ==
            s.attributes.Keys + (set k | 0 <= k < |pairs| && pairs[k].0 in schema.columns :: pairs[k].0)
    decreases |pairs|
  {
    if pairs != [] {
      var init := pairs[..|pairs| - 1];
      RegisteredAttributes(schema, pluralize, s, init);
      RegistrationsSucceed(schema, pluralize, s, init);
      var last := pairs[|pairs| - 1];
      var stored := set k | 0 <= k < |pairs| && pairs[k].0 in schema.columns :: pairs[k].0;
      var storedInit := set k | 0 <= k < |init| && init[k].0 in schema.columns :: init[k].0;
      assert stored == storedInit + (if last.0 in schema.columns then {last.0} else {}) by {
        forall n | n in stored ensures n in storedInit + (if last.0 in schema.columns then {last.0} else {}) {
          var k :| 0 <= k < |pairs| && pairs[k].0 in schema.columns && pairs[k].0 == n;
          if k < |init| { assert init[k] == pairs[k]; }
        }
        forall n | n in storedInit ensures n in stored {
          var k :| 0 <= k < |init| && init[k].0 in schema.columns && init[k].0 == n;
          assert pairs[k] == init[k];
        }
      }
    }
  }

  // ---------------------------------------------------------------------
  // Method dispatch (__call)
  // ---------------------------------------------------------------------

  /** A call routed to an association: `assoc->operation(args, owner)`. */
  datatype Invocation = Invocation(assoc: string, operation: string, args: seq<Value>)

  /** `a` is the longest non-empty association name that starts `method`. */
  ghost predicate IsLongestPrefix(names: set<string>, methodName: string, a: string)
  {
    a in names && |a| > 0 && a <= methodName
    && forall b :: b in names && b <= methodName ==> |b| <= |a|
  }

  /** The operation name `explode(assoc . '_', method, 2)[1]`: what follows the
      first occurrence of `assoc_`; without one PHP has no method to call. */
  function MethodOperation(methodName: string, assoc: string): (r: Result<string>)
    ensures r.Ok? ==> exists i :: OccursAt(assoc + "_", methodName, i)
                                  && (forall k :: 0 <= k < i ==> !OccursAt(assoc + "_", methodName, k))
                                  && r.value == methodName[i + |assoc| + 1..]
    ensures r.Err? <==> forall i :: !OccursAt(assoc + "_", methodName, i)
  {
    match FirstIndexOf(assoc + "_", methodName)
    case Some(i) => Ok(methodName[i + |assoc| + 1..])
    case None => Err(MissingOperation(methodName))
  }

  /** At most one association name can be the longest prefix. */
  lemma LongestPrefixUnique(names: set<string>, methodName: string, a: string, b: string)
    requires IsLongestPrefix(names, methodName, a) && IsLongestPrefix(names, methodName, b)
    ensures a == b
  {
    assert |a| == |b|;
    assert a == methodName[..|a|] && b == methodName[..|b|];
  }

  /** `__call($name, $args)`: the call goes to the longest association name
      that starts the method name, with the operation after `<assoc>_` and the
      arguments as given. */
  ghost function CallSpec(names: set<string>, methodName: string, args: seq<Value>): Result<Invocation>
  {
    if exists a :: IsLongestPrefix(names, methodName, a) then
      var a :| IsLongestPrefix(names, methodName, a);
      match MethodOperation(methodName, a)
      case Ok(op) => Ok(Invocation(a, op, args))
      case Err(e) => Err(e)
    else Err(MethodOrAssociationNotFound(methodName))
  }

  /** `CallSpec` once the longest prefix is known. */
  lemma CallSpecOf(names: set<string>, methodName: string, args: seq<Value>, a: string)
    requires IsLongestPrefix(names, methodName, a)
    ensures CallSpec(names, methodName, args)
         == match MethodOperation(methodName, a)
            case Ok(op) => Ok(Invocation(a, op, args))
            case Err(e) => Err(e)
  {
    forall b | IsLongestPrefix(names, methodName, b) ensures b == a {
      LongestPrefixUnique(names, methodName, a, b);
    }
  }

  /** The outcomes of `__call`: it is routed exactly when some association
      name starts the method name and is followed there by `_`; it reaches the
      longest such name with the operation after `<assoc>_` and the arguments
      unchanged; it fails with MethodOrAssociationNotFound exactly when no
      association name starts the method name, and otherwise with
      MissingOperation. */
  lemma CallOutcomes(names: set<string>, methodName: string, args: seq<Value>)
    ensures var r := CallSpec(names, methodName, args);
      && (r.Ok? <==> exists a :: IsLongestPrefix(names, methodName, a) && MethodOperation(methodName, a).Ok?)
      && (r.Ok? ==> IsLongestPrefix(names, methodName, r.value.assoc)
                    && MethodOperation(methodName, r.value.assoc) == Ok(r.value.operation)
                    && r.value.args == args)
      && (r == Err(MethodOrAssociationNotFound(methodName))
          <==> forall a :: a in names ==> !(|a| > 0 && a <= methodName))
      && (r.Err? ==> r.error.MethodOrAssociationNotFound? || r.error.MissingOperation?)
  {
    if exists a :: IsLongestPrefix(names, methodName, a) {
      var a :| IsLongestPrefix(names, methodName, a);
      CallSpecOf(names, methodName, args, a);
      forall b | IsLongestPrefix(names, methodName, b) ensures b == a {
        LongestPrefixUnique(names, methodName, a, b);
      }
    } else {
      forall a | a in names && |a| > 0 && a <= methodName
        ensures false
      {
        var longest := LongestAmong(names, methodName, a);
      }
    }
  }

  /** Some name that starts the method name is at least as long as `a`, and
      none that starts it is longer. */
  lemma LongestAmong(names: set<string>, methodName: string, a: string) returns (longest: string)
    requires a in names && |a| > 0 && a <= methodName
    ensures IsLongestPrefix(names, methodName, longest)
  {
    var prefixes := set b | b in names && b <= methodName;
    longest := a;
    var rest := prefixes - {a};
    while rest != {}
      invariant longest in prefixes && |longest| > 0
      invariant forall b :: b in prefixes - rest ==> |b| <= |longest|
      invariant rest <= prefixes
      decreases rest
    {
      var b :| b in rest;
      if |b| > |longest| { longest := b; }
      rest := rest - {b};
    }
  }

  /** When the association name is followed by `_`, the operation is the rest
      of the method name: `comments_push` on `comments` calls `push`. */
  lemma OperationAfterPrefix(methodName: string, assoc: string)
    requires assoc + "_" <= methodName
    ensures MethodOperation(methodName, assoc) == Ok(methodName[|assoc| + 1..])
  {
    assert methodName[0..|assoc| + 1] == assoc + "_";
  }

  // ---------------------------------------------------------------------
  // save, destroy, update_attributes
  // ---------------------------------------------------------------------

  /** What `save` and `destroy` do outside the instance, in order: hooks,
      calls on associations and their records, and database writes. */
  datatype Event =
    | RunHook(hook: Hook)
    | SaveRelated(assoc: string)
    | ReassignAssociation(assoc: string)
    | SaveAsNeeded(assoc: string)
    | DestroyAssociation(assoc: string)
    | Insert(table: string, columns: seq<string>, values: seq<Value>)
    | Update(table: string, assignments: seq<(string, Value)>, key: string, keyValue: Value)
    | Delete(table: string, key: string, keyValue: Value)

  predicate IsDbWrite(e: Event)
  {
    e.Insert? || e.Update? || e.Delete?
  }

  /** The database writes among `events`, in order. */
  function DbWrites(events: seq<Event>): (r: seq<Event>)
    ensures forall k :: 0 <= k < |r| ==> IsDbWrite(r[k])
    ensures |r| <= |events|
  {
    if events == [] then []
    else DbWrites(events[..|events| - 1])
         + (if IsDbWrite(events[|events| - 1]) then [events[|events| - 1]] else [])
  }

  lemma {:induction false} DbWritesAppend(a: seq<Event>, b: seq<Event>)
    ensures DbWrites(a + b) == DbWrites(a) + DbWrites(b)
    decreases |b|
  {
    if b == [] {
      assert a + b == a;
    } else {
      assert (a + b)[..|a + b| - 1] == a + b[..|b| - 1];
      DbWritesAppend(a, b[..|b| - 1]);
    }
  }

  /** The hook event, when the class defines the hook. */
  function HookEvents(schema: Schema, h: Hook): seq<Event>
  {
    if h in schema.hooks then [RunHook(h)] else []
  }

  lemma NoDbWriteInHook(schema: Schema, h: Hook)
    ensures DbWrites(HookEvents(schema, h)) == []
  {
  }

  /** `$this->$column` for a column on a consistent instance. */
  function ColumnValue(s: Instance, column: string): Value
  {
    if column in s.attributes then s.attributes[column] else Null
  }

  /** A null column is written as the literal `NULL`. */
  function SqlValue(v: Value): Value
  {
    if v == Null then Str("NULL") else v
  }

  /** The columns other than the primary key, in declaration order. */
  function NonKeyColumns(schema: Schema): seq<string>
  {
    Filter(schema.columns, schema.primaryKey)
  }

  function Filter(cols: seq<string>, key: string): (r: seq<string>)
    ensures forall c :: c in r <==> c in cols && c != key
  {
    if cols == [] then []
    else Filter(cols[..|cols| - 1], key)
         + (if cols[|cols| - 1] == key then [] else [cols[|cols| - 1]])
  }

  /** The value list of the INSERT statement. */
  function InsertValues(s: Instance, cols: seq<string>): (r: seq<Value>)
    ensures |r| == |cols|
    ensures forall k :: 0 <= k < |cols| ==> r[k] == SqlValue(ColumnValue(s, cols[k]))
  {
    seq(|cols|, k requires 0 <= k < |cols| => SqlValue(ColumnValue(s, cols[k])))
  }

  /** The column => value map of the UPDATE statement. */
  function UpdateValues(s: Instance, cols: seq<string>): (r: seq<(string, Value)>)
    ensures |r| == |cols|
    ensures forall k :: 0 <= k < |cols| ==> r[k] == (cols[k], SqlValue(ColumnValue(s, cols[k])))
  {
    seq(|cols|, k requires 0 <= k < |cols| => (cols[k], SqlValue(ColumnValue(s, cols[k]))))
  }

  /** Whether the save cascade visits `n` as an owner: a belongs-to
      association whose `needs_saving()` answers true. */
  predicate NeedsOwnerSave(associations: map<string, Association>, needs: set<string>, n: string)
  {
    n in associations && associations[n].kind == BelongsTo && n in needs
  }

  /** The (foreign key, owner key) pairs the belongs-to pass writes, in order. */
  function OwnerWrites(associations: map<string, Association>, needs: set<string>,
                       links: string -> (string, Value), names: seq<string>): (r: seq<(string, Value)>)
    ensures r == [] <==> forall k :: 0 <= k < |names| ==> !NeedsOwnerSave(associations, needs, names[k])
    decreases |names|
  {
    if names == [] then []
    else
      var n := names[|names| - 1];
      OwnerWrites(associations, needs, links, names[..|names| - 1])
      + (if NeedsOwnerSave(associations, needs, n) then [links(n)] else [])
  }

  predicate KeysAreColumns(schema: Schema, pairs: seq<(string, Value)>)
  {
    forall k :: 0 <= k < |pairs| ==> pairs[k].0 in schema.columns
  }

  /** One name `n` of the belongs-to pass, from the current state `t`: save
      the owner record, then assign the association to itself.  That `__set`
      of the association name is refused when frozen; otherwise it hands the
      saved owner to the association, which writes the owner's key into this
      record's foreign key through `__set`.  `links(n)` is that column and
      key (the association classes are not part of this model). */
  function OwnerStep(schema: Schema, pluralize: string -> string, associations: map<string, Association>,
                     needs: set<string>, links: string -> (string, Value), t: Instance, n: string)
    : (Instance, seq<Event>, Option<Error>)
  {
    if NeedsOwnerSave(associations, needs, n) then
      if t.frozen then (t, [SaveRelated(n)], Some(ObjectFrozen(n)))
      else
        var (u, r) := Write(schema, pluralize, t, links(n).0, links(n).1);
        (u, [SaveRelated(n), ReassignAssociation(n)], if r.Err? then Some(r.error) else None)
    else (t, [], None)
  }

  /** The belongs-to pass of `save`, over association names in order, until
      a step raises.  It walks the associations of `s`, the instance as the
      pass starts. */
  function OwnersCascade(schema: Schema, pluralize: string -> string, s: Instance, needs: set<string>,
                         links: string -> (string, Value), names: seq<string>)
    : (Instance, seq<Event>, Option<Error>)
    decreases |names|
  {
    if names == [] then (s, [], None)
    else
      var (t, ev, e) := OwnersCascade(schema, pluralize, s, needs, links, names[..|names| - 1]);
      if e.Some? then (t, ev, e)
      else
        var (u, step, r) := OwnerStep(schema, pluralize, s.associations, needs, links, t, names[|names| - 1]);
        (u, ev + step, r)
  }

  /** One more name in the belongs-to pass, while nothing has failed. */
  lemma OwnersStep(schema: Schema, pluralize: string -> string, s: Instance, needs: set<string>,
                   links: string -> (string, Value), names: seq<string>, i: nat)
    requires i < |names| && OwnersCascade(schema, pluralize, s, needs, links, names[..i]).2 == None
    ensures var (t, before, _) := OwnersCascade(schema, pluralize, s, needs, links, names[..i]);
      var (u, step, r) := OwnerStep(schema, pluralize, s.associations, needs, links, t, names[i]);
      OwnersCascade(schema, pluralize, s, needs, links, names[..i + 1]) == (u, before + step, r)
  {
    assert names[..i + 1][..i] == names[..i];
  }

  /** The has-one / has-many pass of `save`: re-assign then save a has-one
      record; let a has-many association save the records it holds. */
  function DependentsCascade(s: Instance, needs: set<string>, names: seq<string>): (seq<Event>, Option<Error>)
    decreases |names|
  {
    if names == [] then ([], None)
    else
      var (ev, e) := DependentsCascade(s, needs, names[..|names| - 1]);
      if e.Some? then (ev, e)
      else
        var n := names[|names| - 1];
        if n in s.associations && s.associations[n].kind == HasOne && n in needs then
          if s.frozen then (ev, Some(ObjectFrozen(n)))
          else (ev + [ReassignAssociation(n), SaveRelated(n)], None)
        else if n in s.associations && s.associations[n].kind == HasMany && n in needs then
          (ev + [SaveAsNeeded(n)], None)
        else (ev, None)
  }

  /** One more name in the has-one / has-many pass, while nothing has failed. */
  lemma DependentsStep(s: Instance, needs: set<string>, names: seq<string>, j: nat)
    requires j < |names| && DependentsCascade(s, needs, names[..j]).1 == None
    ensures var before, n := DependentsCascade(s, needs, names[..j]).0, names[j];
      DependentsCascade(s, needs, names[..j + 1])
      == if n in s.associations && s.associations[n].kind == HasOne && n in needs then
           if s.frozen then (before, Some(ObjectFrozen(n)))
           else (before + [ReassignAssociation(n), SaveRelated(n)], None)
         else if n in s.associations && s.associations[n].kind == HasMany && n in needs then
           (before + [SaveAsNeeded(n)], None)
         else (before, None)
  {
    assert names[..j + 1][..j] == names[..j];
  }

  /** Once a cascade has stopped with an exception, the later names change nothing. */
  lemma {:induction false} OwnersStop(schema: Schema, pluralize: string -> string, s: Instance, needs: set<string>,
                                      links: string -> (string, Value), names: seq<string>, i: nat)
    requires 0 < i <= |names| && OwnersCascade(schema, pluralize, s, needs, links, names[..i]).2.Some?
    ensures OwnersCascade(schema, pluralize, s, needs, links, names)
            == OwnersCascade(schema, pluralize, s, needs, links, names[..i])
    decreases |names| - i
  {
    if i < |names| {
      assert names[..i + 1][..i] == names[..i];
      OwnersStop(schema, pluralize, s, needs, links, names, i + 1);
    } else {
      assert names[..i] == names;
    }
  }

  lemma {:induction false} DependentsStop(s: Instance, needs: set<string>, names: seq<string>, i: nat)
    requires 0 < i <= |names| && DependentsCascade(s, needs, names[..i]).1.Some?
    ensures DependentsCascade(s, needs, names) == DependentsCascade(s, needs, names[..i])
    decreases |names| - i
  {
    if i < |names| {
      assert names[..i + 1][..i] == names[..i];
      DependentsStop(s, needs, names, i + 1);
    } else {
      assert names[..i] == names;
    }
  }

  /** Neither cascade writes to this record's table itself: the belongs-to
      pass only changes the instance. */
  lemma CascadesWriteNothing(schema: Schema, pluralize: string -> string, s: Instance,
                             needs: set<string>, links: string -> (string, Value), names: seq<string>)
    ensures DbWrites(OwnersCascade(schema, pluralize, s, needs, links, names).1) == []
    ensures DbWrites(DependentsCascade(s, needs, names).0) == []
  {
    OwnersWriteNothing(schema, pluralize, s, needs, links, names);
    DependentsWriteNothing(s, needs, names);
  }

  lemma {:induction false} OwnersWriteNothing(schema: Schema, pluralize: string -> string, s: Instance,
                                              needs: set<string>, links: string -> (string, Value), names: seq<string>)
    ensures DbWrites(OwnersCascade(schema, pluralize, s, needs, links, names).1) == []
    decreases |names|
  {
    if names != [] {
      var init := names[..|names| - 1];
      OwnersWriteNothing(schema, pluralize, s, needs, links, init);
      var ev := OwnersCascade(schema, pluralize, s, needs, links, init).1;
      var n := names[|names| - 1];
      DbWritesAppend(ev, [SaveRelated(n)]);
      DbWritesAppend(ev, [SaveRelated(n), ReassignAssociation(n)]);
      assert ev + [] == ev;
      assert DbWrites([SaveRelated(n), ReassignAssociation(n)]) == [] by {
        assert [SaveRelated(n), ReassignAssociation(n)][..1] == [SaveRelated(n)];
      }
    }
  }

  lemma {:induction false} DependentsWriteNothing(s: Instance, needs: set<string>, names: seq<string>)
    ensures DbWrites(DependentsCascade(s, needs, names).0) == []
    decreases |names|
  {
    if names != [] {
      DependentsWriteNothing(s, needs, names[..|names| - 1]);
      var dv := DependentsCascade(s, needs, names[..|names| - 1]).0;
      var n := names[|names| - 1];
      DbWritesAppend(dv, [ReassignAssociation(n), SaveRelated(n)]);
      DbWritesAppend(dv, [SaveAsNeeded(n)]);
      assert DbWrites([ReassignAssociation(n), SaveRelated(n)]) == [] by {
        assert [ReassignAssociation(n), SaveRelated(n)][..1] == [ReassignAssociation(n)];
      }
    }
  }

  /** On a live record the belongs-to pass ends exactly as `__set` of each
      owner's key into its foreign key, in association order, would. */
  lemma {:induction false} OwnersAsWrites(schema: Schema, pluralize: string -> string, s: Instance,
                                          needs: set<string>, links: string -> (string, Value), names: seq<string>)
    requires !s.frozen
    ensures var (t, _, e) := OwnersCascade(schema, pluralize, s, needs, links, names);
      (t, e) == WriteAll(schema, pluralize, s, OwnerWrites(s.associations, needs, links, names))
    decreases |names|
  {
    if names != [] {
      var init := names[..|names| - 1];
      OwnersAsWrites(schema, pluralize, s, needs, links, init);
      OwnersKeep(schema, pluralize, s, needs, links, init);
      var (_, ev, _) := OwnersCascade(schema, pluralize, s, needs, links, init);
      assert ev + [] == ev;
      var w := OwnerWrites(s.associations, needs, links, init);
      var n := names[|names| - 1];
      if NeedsOwnerSave(s.associations, needs, n) {
        assert (w + [links(n)])[..|w|] == w;
      } else {
        assert w + [] == w;
      }
    }
  }

  /** The belongs-to pass of a frozen record changes nothing, and it raises
      exactly when some owner needs saving. */
  lemma {:induction false} OwnersFrozen(schema: Schema, pluralize: string -> string, s: Instance,
                                        needs: set<string>, links: string -> (string, Value), names: seq<string>)
    requires s.frozen
    ensures var (t, _, e) := OwnersCascade(schema, pluralize, s, needs, links, names);
      t == s && (e == None <==> OwnerWrites(s.associations, needs, links, names) == [])
    decreases |names|
  {
    if names != [] {
      OwnersFrozen(schema, pluralize, s, needs, links, names[..|names| - 1]);
    }
  }

  /** When every foreign key the pass writes is a column, the belongs-to pass
      of a live record succeeds, merges the owners' keys into the attributes
      (a later key winning) and marks the record modified exactly when it
      wrote a key; nothing else changes. */
  lemma OwnersKeyColumns(schema: Schema, pluralize: string -> string, s: Instance,
                         needs: set<string>, links: string -> (string, Value), names: seq<string>)
    requires !s.frozen && KeysAreColumns(schema, OwnerWrites(s.associations, needs, links, names))
    ensures var w := OwnerWrites(s.associations, needs, links, names);
      var (t, _, e) := OwnersCascade(schema, pluralize, s, needs, links, names);
      && e == None
      && t == s.(attributes := s.attributes + MapOf(w), isModified := s.isModified || w != [])
  {
    OwnersAsWrites(schema, pluralize, s, needs, links, names);
    WriteAllColumns(schema, pluralize, s, OwnerWrites(s.associations, needs, links, names));
  }

  /** The belongs-to pass keeps the record's lifecycle flags and never clears
      `isModified`. */
  lemma {:induction false} OwnersKeep(schema: Schema, pluralize: string -> string, s: Instance,
                                      needs: set<string>, links: string -> (string, Value), names: seq<string>)
    ensures var t := OwnersCascade(schema, pluralize, s, needs, links, names).0;
      t.frozen == s.frozen && t.newRecord == s.newRecord && (s.isModified ==> t.isModified)
    decreases |names|
  {
    if names != [] {
      OwnersKeep(schema, pluralize, s, needs, links, names[..|names| - 1]);
    }
  }

  /** The insert-or-update step of `save`: INSERT a new record and store the
      generated key, UPDATE a modified one, leave an unmodified one alone. */
  function PersistStep(schema: Schema, pluralize: string -> string, s: Instance, generatedId: Value): (Instance, seq<Event>, Option<Error>)
  {
    if s.newRecord then
      var ins := Insert(schema.tableName, schema.columns, InsertValues(s, NonKeyColumns(schema)));
      var (t, r) := Write(schema, pluralize, s, schema.primaryKey, generatedId);
      if r.Err? then (t, HookEvents(schema, BeforeCreate) + [ins], Some(r.error))
      else
        (t.(newRecord := false, isModified := false),
         HookEvents(schema, BeforeCreate) + [ins] + HookEvents(schema, AfterCreate), None)
    else if s.isModified then
      var upd := Update(schema.tableName, UpdateValues(s, NonKeyColumns(schema)),
                        schema.primaryKey, ColumnValue(s, schema.primaryKey));
      (s.(newRecord := false, isModified := false),
       HookEvents(schema, BeforeUpdate) + [upd] + HookEvents(schema, AfterUpdate), None)
    else (s, [], None)
  }

  /** The INSERT branch of `PersistStep`, unfolded: a frozen instance stops
      after the INSERT event; any other takes the generated key. */
  lemma InsertOutcome(schema: Schema, pluralize: string -> string, s: Instance, generatedId: Value)
    requires WellFormed(schema) && s.newRecord
    ensures var ins := Insert(schema.tableName, schema.columns, InsertValues(s, NonKeyColumns(schema)));
      PersistStep(schema, pluralize, s, generatedId)
      == if s.frozen then (s, HookEvents(schema, BeforeCreate) + [ins], Some(ObjectFrozen(schema.primaryKey)))
         else (s.(attributes := s.attributes[schema.primaryKey := generatedId], newRecord := false, isModified := false),
               HookEvents(schema, BeforeCreate) + [ins] + HookEvents(schema, AfterCreate), None)
  {
  }

  /** `save()`: the new state, the events in order, and the exception, if any.
      `generatedId` is what the INSERT returns; `needs` names the associations
      whose `needs_saving()` answers true; `links` gives, per belongs-to
      association, the foreign key and owner key it writes (see
      `OwnersCascade`).  The insert-or-update step sees the foreign keys the
      belongs-to pass wrote. */
  function SaveSpec(schema: Schema, pluralize: string -> string, s: Instance, generatedId: Value,
                    needs: set<string>, links: string -> (string, Value))
    : (Instance, seq<Event>, Option<Error>)
  {
    var pre := HookEvents(schema, BeforeSave);
    var (o, owners, e) := OwnersCascade(schema, pluralize, s, needs, links, s.order);
    if e.Some? then (o, pre + owners, e)
    else
      var p := PersistStep(schema, pluralize, o, generatedId);
      if p.2.Some? then (p.0, pre + owners + p.1, p.2)
      else
        var deps := DependentsCascade(p.0, needs, p.0.order);
        if deps.1.Some? then (p.0, pre + owners + p.1 + deps.0, deps.1)
        else (p.0, pre + owners + p.1 + deps.0 + HookEvents(schema, AfterSave), None)
  }

  /** `save()` writes to this record's table only in its insert-or-update
      step, which runs on the state the belongs-to pass left, and it ends in
      the state that step leaves.  A belongs-to pass that raises stops
      `save()` before any database write. */
  lemma SaveWrites(schema: Schema, pluralize: string -> string, s: Instance, generatedId: Value,
                   needs: set<string>, links: string -> (string, Value))
    ensures var (o, _, e0) := OwnersCascade(schema, pluralize, s, needs, links, s.order);
      var (t, events, e) := SaveSpec(schema, pluralize, s, generatedId, needs, links);
      var p := PersistStep(schema, pluralize, o, generatedId);
      && (e0.Some? ==> t == o && e == e0 && DbWrites(events) == [])
      && (e0.None? ==> t == p.0 && DbWrites(events) == DbWrites(p.1))
  {
    var pre := HookEvents(schema, BeforeSave);
    var (o, owners, e0) := OwnersCascade(schema, pluralize, s, needs, links, s.order);
    OwnersWriteNothing(schema, pluralize, s, needs, links, s.order);
    NoDbWriteInHook(schema, BeforeSave);
    DbWritesAppend(pre, owners);
    assert DbWrites(pre + owners) == [];
    if e0.Some? {
      assert SaveSpec(schema, pluralize, s, generatedId, needs, links) == (o, pre + owners, e0);
    } else {
      var p := PersistStep(schema, pluralize, o, generatedId);
      var w := DbWrites(p.1);
      DbWritesAppend(pre + owners, p.1);
      assert DbWrites(pre + owners + p.1) == w;
      if p.2.Some? {
        assert SaveSpec(schema, pluralize, s, generatedId, needs, links) == (p.0, pre + owners + p.1, p.2);
      } else {
        var (deps, e3) := DependentsCascade(p.0, needs, p.0.order);
        var post := HookEvents(schema, AfterSave);
        DependentsWriteNothing(p.0, needs, p.0.order);
        NoDbWriteInHook(schema, AfterSave);
        DbWritesAppend(pre + owners + p.1, deps);
        assert DbWrites(pre + owners + p.1 + deps) == w;
        DbWritesAppend(pre + owners + p.1 + deps, post);
        assert SaveSpec(schema, pluralize, s, generatedId, needs, links)
               == (p.0, if e3.Some? then pre + owners + p.1 + deps else pre + owners + p.1 + deps + post,
                   if e3.Some? then e3 else None);
      }
    }
  }

  /** On a live record `save()` also raises exactly when its insert-or-update
      step or its belongs-to pass does: the has-one / has-many pass of a
      live record never raises. */
  lemma SaveIsPersist(schema: Schema, pluralize: string -> string, s: Instance, generatedId: Value,
                      needs: set<string>, links: string -> (string, Value))
    requires !s.frozen
    ensures var (o, _, e0) := OwnersCascade(schema, pluralize, s, needs, links, s.order);
      var (t, events, e) := SaveSpec(schema, pluralize, s, generatedId, needs, links);
      var p := PersistStep(schema, pluralize, o, generatedId);
      && (e0.Some? ==> t == o && e == e0 && DbWrites(events) == [])
      && (e0.None? ==> t == p.0 && e == p.2 && DbWrites(events) == DbWrites(p.1))
  {
    SaveWrites(schema, pluralize, s, generatedId, needs, links);
    var o := OwnersCascade(schema, pluralize, s, needs, links, s.order).0;
    OwnersKeep(schema, pluralize, s, needs, links, s.order);
    var p := PersistStep(schema, pluralize, o, generatedId);
    WriteKeepsFrozen(schema, pluralize, o, generatedId);
    DependentsLive(p.0, needs, p.0.order);
  }

  /** The insert-or-update step leaves a live record live. */
  lemma WriteKeepsFrozen(schema: Schema, pluralize: string -> string, s: Instance, generatedId: Value)
    ensures PersistStep(schema, pluralize, s, generatedId).0.frozen == s.frozen
  {
  }

  /** Saving a live new record issues exactly one database write, an INSERT of
      every non-key column (null as `NULL`) into the record's table, after the
      belongs-to pass has written each saved owner's key into its foreign key;
      the generated key is stored and both `newRecord` and `isModified` clear.
      The foreign keys are assumed to be columns (otherwise `SaveIsPersist`:
      nothing is written). */
  lemma SaveNewRecord(schema: Schema, pluralize: string -> string, s: Instance, generatedId: Value,
                      needs: set<string>, links: string -> (string, Value))
    requires WellFormed(schema) && !s.frozen && s.newRecord
    requires KeysAreColumns(schema, OwnerWrites(s.associations, needs, links, s.order))
    ensures var w := OwnerWrites(s.associations, needs, links, s.order);
      var u := s.(attributes := s.attributes + MapOf(w), isModified := s.isModified || w != []);
      var (t, events, e) := SaveSpec(schema, pluralize, s, generatedId, needs, links);
      && e == None
      && DbWrites(events) == [Insert(schema.tableName, schema.columns, InsertValues(u, NonKeyColumns(schema)))]
      && !t.newRecord && !t.isModified && !t.frozen
      && t.attributes == u.attributes[schema.primaryKey := generatedId]
      && t.associations == s.associations
  {
    var w := OwnerWrites(s.associations, needs, links, s.order);
    OwnersKeyColumns(schema, pluralize, s, needs, links, s.order);
    var o := OwnersCascade(schema, pluralize, s, needs, links, s.order).0;
    assert o == s.(attributes := s.attributes + MapOf(w), isModified := s.isModified || w != []);
    SaveIsPersist(schema, pluralize, s, generatedId, needs, links);
    InsertOutcome(schema, pluralize, o, generatedId);
    var ins := Insert(schema.tableName, schema.columns, InsertValues(o, NonKeyColumns(schema)));
    DbWritesAppend(HookEvents(schema, BeforeCreate), [ins]);
    DbWritesAppend(HookEvents(schema, BeforeCreate) + [ins], HookEvents(schema, AfterCreate));
  }

  /** Saving an unmodified stored record that no owner asks to save, or a
      frozen one, changes nothing and writes nothing, whatever the has-one
      and has-many cascades do. */
  lemma SaveUnmodified(schema: Schema, pluralize: string -> string, s: Instance, generatedId: Value,
                       needs: set<string>, links: string -> (string, Value))
    requires !s.newRecord && !s.isModified
    ensures var (t, events, _) := SaveSpec(schema, pluralize, s, generatedId, needs, links);
      OwnerWrites(s.associations, needs, links, s.order) == [] || s.frozen ==> t == s && DbWrites(events) == []
  {
    if OwnerWrites(s.associations, needs, links, s.order) == [] || s.frozen {
      if s.frozen {
        OwnersFrozen(schema, pluralize, s, needs, links, s.order);
      } else {
        OwnersAsWrites(schema, pluralize, s, needs, links, s.order);
      }
      SaveWrites(schema, pluralize, s, generatedId, needs, links);
      assert PersistStep(schema, pluralize, s, generatedId) == (s, [], None);
    }
  }

  /** Saving a live stored record that is modified, or that the belongs-to
      pass modifies by writing an owner's key, issues exactly one UPDATE of
      the non-key values (owner keys included) keyed by the primary key; the
      record then holds those keys and is unmodified.  The foreign keys are
      assumed to be columns (otherwise `SaveIsPersist`: nothing is written). */
  lemma SaveModifiedRecord(schema: Schema, pluralize: string -> string, s: Instance, generatedId: Value,
                           needs: set<string>, links: string -> (string, Value))
    requires WellFormed(schema) && !s.frozen && !s.newRecord
    requires s.isModified || OwnerWrites(s.associations, needs, links, s.order) != []
    requires KeysAreColumns(schema, OwnerWrites(s.associations, needs, links, s.order))
    ensures var u := s.(attributes := s.attributes + MapOf(OwnerWrites(s.associations, needs, links, s.order)),
                        isModified := true);
      var (t, events, e) := SaveSpec(schema, pluralize, s, generatedId, needs, links);
      && e == None
      && DbWrites(events) == [Update(schema.tableName, UpdateValues(u, NonKeyColumns(schema)),
                                     schema.primaryKey, ColumnValue(u, schema.primaryKey))]
      && t == u.(isModified := false)
  {
    var w := OwnerWrites(s.associations, needs, links, s.order);
    OwnersKeyColumns(schema, pluralize, s, needs, links, s.order);
    var o := OwnersCascade(schema, pluralize, s, needs, links, s.order).0;
    assert o == s.(attributes := s.attributes + MapOf(w), isModified := true);
    SaveIsPersist(schema, pluralize, s, generatedId, needs, links);
    UpdateOutcome(schema, pluralize, o, generatedId);
  }

  /** The UPDATE branch of `PersistStep`: one database write, the UPDATE of
      the non-key values keyed by the primary key; only the flag clears. */
  lemma UpdateOutcome(schema: Schema, pluralize: string -> string, s: Instance, generatedId: Value)
    requires !s.newRecord && s.isModified
    ensures var upd := Update(schema.tableName, UpdateValues(s, NonKeyColumns(schema)),
                              schema.primaryKey, ColumnValue(s, schema.primaryKey));
      var (t, events, e) := PersistStep(schema, pluralize, s, generatedId);
      t == s.(isModified := false) && e == None && DbWrites(events) == [upd]
  {
    var upd := Update(schema.tableName, UpdateValues(s, NonKeyColumns(schema)),
                      schema.primaryKey, ColumnValue(s, schema.primaryKey));
    NoDbWriteInHook(schema, BeforeUpdate);
    NoDbWriteInHook(schema, AfterUpdate);
    DbWritesAppend(HookEvents(schema, BeforeUpdate), [upd]);
    DbWritesAppend(HookEvents(schema, BeforeUpdate) + [upd], HookEvents(schema, AfterUpdate));
  }

  /** A successful save followed by another save with nothing changed in
      between writes nothing the second time, unless a belongs-to association
      needs saving again (its key is then written back, see
      `SaveModifiedRecord`). */
  lemma SaveTwice(schema: Schema, pluralize: string -> string, s: Instance, id1: Value, id2: Value,
                  needs1: set<string>, needs2: set<string>, links: string -> (string, Value))
    requires SaveSpec(schema, pluralize, s, id1, needs1, links).2 == None
    ensures var t := SaveSpec(schema, pluralize, s, id1, needs1, links).0;
      OwnerWrites(t.associations, needs2, links, t.order) == []
      ==> DbWrites(SaveSpec(schema, pluralize, t, id2, needs2, links).1) == []
  {
    var t := SaveSpec(schema, pluralize, s, id1, needs1, links).0;
    SaveUnmodified(schema, pluralize, t, id2, needs2, links);
  }

  lemma {:induction false} DependentsLive(s: Instance, needs: set<string>, names: seq<string>)
    requires !s.frozen
    ensures DependentsCascade(s, needs, names).1 == None
    decreases |names|
  {
    if names != [] { DependentsLive(s, needs, names[..|names| - 1]); }
  }

  /** One `destroy` call per association name, in order. */
  function DestroyAssociations(names: seq<string>): (r: seq<Event>)
    ensures |r| == |names|
    ensures forall k :: 0 <= k < |names| ==> r[k] == DestroyAssociation(names[k])
    decreases |names|
  {
    if names == [] then []
    else DestroyAssociations(names[..|names| - 1]) + [DestroyAssociation(names[|names| - 1])]
  }

  /** The events of `destroy()`: hooks around the association cascade and a
      DELETE keyed by the primary key. */
  function DestroyEvents(schema: Schema, s: Instance): seq<Event>
  {
    HookEvents(schema, BeforeDestroy)
    + DestroyAssociations(s.order)
    + [Delete(schema.tableName, schema.primaryKey, ColumnValue(s, schema.primaryKey))]
    + HookEvents(schema, AfterDestroy)
  }

  /** After `destroy()` every write is refused with ObjectFrozen and leaves the
      state alone, while every read resolves exactly as before. */
  lemma FrozenAfterDestroy(schema: Schema, pluralize: string -> string, s: Instance, name: string, v: Value)
    ensures var d := s.(frozen := true);
      && Write(schema, pluralize, d, name, v) == (d, Err(ObjectFrozen(name)))
      && Read(schema, pluralize, d, name) == Read(schema, pluralize, s, name)
  {
  }

  /** `destroy()` issues exactly one database write: the DELETE of this record. */
  lemma DestroyDeletesOnce(schema: Schema, s: Instance)
    requires WellFormed(schema)
    ensures DbWrites(DestroyEvents(schema, s))
            == [Delete(schema.tableName, schema.primaryKey, ColumnValue(s, schema.primaryKey))]
  {
    var pre, post := HookEvents(schema, BeforeDestroy), HookEvents(schema, AfterDestroy);
    var assocs := DestroyAssociations(s.order);
    var del := Delete(schema.tableName, schema.primaryKey, ColumnValue(s, schema.primaryKey));
    NoDbWriteInHook(schema, BeforeDestroy);
    NoDbWriteInHook(schema, AfterDestroy);
    NoDbWriteAmong(assocs);
    DbWritesAppend(pre, assocs);
    assert DbWrites(pre + assocs) == [];
    DbWritesAppend(pre + assocs, [del]);
    assert DbWrites([del]) == [del] by { assert [del][..0] == []; }
    assert DbWrites(pre + assocs + [del]) == [del];
    DbWritesAppend(pre + assocs + [del], post);
  }

  lemma {:induction false} NoDbWriteAmong(events: seq<Event>)
    requires forall k :: 0 <= k < |events| ==> !IsDbWrite(events[k])
    ensures DbWrites(events) == []
    decreases |events|
  {
    if events != [] { NoDbWriteAmong(events[..|events| - 1]); }
  }

  /** `update_attributes($attributes)`: write every pair, then save. */
  function UpdateAttributesSpec(schema: Schema, pluralize: string -> string, s: Instance,
                                pairs: seq<(string, Value)>, generatedId: Value, needs: set<string>,
                                links: string -> (string, Value))
    : (Instance, seq<Event>, Option<Error>)
  {
    var (t, e) := WriteAll(schema, pluralize, s, pairs);
    if e.Some? then (t, [], e)
    else SaveSpec(schema, pluralize, t, generatedId, needs, links)
  }

  /** Updating columns of a live stored record writes them and saves them
      with one UPDATE that carries the new values and the owners' keys the
      belongs-to pass writes after them (assumed to be columns). */
  lemma UpdateAttributesColumns(schema: Schema, pluralize: string -> string, s: Instance,
                                pairs: seq<(string, Value)>, generatedId: Value, needs: set<string>,
                                links: string -> (string, Value))
    requires WellFormed(schema) && !s.frozen && !s.newRecord && pairs != []
    requires forall k :: 0 <= k < |pairs| ==> pairs[k].0 in schema.columns
    requires KeysAreColumns(schema, OwnerWrites(s.associations, needs, links, s.order))
    ensures var (t, events, e) := UpdateAttributesSpec(schema, pluralize, s, pairs, generatedId, needs, links);
      var u := s.(attributes := s.attributes + MapOf(pairs) + MapOf(OwnerWrites(s.associations, needs, links, s.order)),
                  isModified := true);
      && e == None
      && t == u.(isModified := false)
      && DbWrites(events) == [Update(schema.tableName, UpdateValues(u, NonKeyColumns(schema)),
                                     schema.primaryKey, ColumnValue(u, schema.primaryKey))]
  {
    WriteAllColumns(schema, pluralize, s, pairs);
    var t := WriteAll(schema, pluralize, s, pairs).0;
    assert t == s.(attributes := s.attributes + MapOf(pairs), isModified := true);
    SaveModifiedRecord(schema, pluralize, t, generatedId, needs, links);
  }
}
