/** The `Model` class: one ActiveRecord instance whose fields its methods
    update in place.  Every method is tied to the specification in `Records`
    through `State()`; the properties are proved there. */
module ActiveRecord {
  import opened Values
  import opened Strings
  import opened Records

  class Model {
    const schema: Schema
    const inflector: Inflector
    var attributes: map<string, Value>
    var associations: map<string, Association>
    var order: seq<string>
    var isModified: bool
    var frozen: bool
    var newRecord: bool
    /** What the instance did outside itself (hooks, association calls,
        database writes), in order. */
    var log: seq<Event>

    function State(): Instance
      reads this`attributes, this`associations, this`order, this`isModified, this`frozen, this`newRecord
    {
      Instance(attributes, associations, order, isModified, frozen, newRecord)
    }

    ghost predicate Valid()
      reads this`attributes, this`associations, this`order, this`isModified, this`frozen, this`newRecord
    {
      WellFormed(schema) && Consistent(schema, State())
    }

    /** Allocation, before the constructor body of `__construct` runs
        (see `Populate`). */
    constructor (schema: Schema, inflector: Inflector)
      requires WellFormed(schema)
      ensures Valid() && State() == Blank() && log == []
      ensures this.schema == schema && this.inflector == inflector
    {
      this.schema := schema;
      this.inflector := inflector;
      attributes, associations, order := map[], map[], [];
      isModified, frozen, newRecord := false, false, true;
      log := [];
    }

    /** `__set($name, $value)`. */
    method Set(name: string, v: Value) returns (r: Result<Effect>)
      requires Valid()
      modifies this`attributes, this`associations, this`order, this`isModified
      ensures Valid()
      ensures (State(), r) == Write(schema, inflector.pluralize, old(State()), name, v)
    {
      WriteKeepsConsistent(schema, inflector.pluralize, State(), name, v);
      if frozen {
        return Err(ObjectFrozen(name));
      }
      if name in schema.columns {
        attributes := attributes[name := v];
        isModified := true;
        r := Ok(Stored);
      } else if v.Assoc? {
        if name !in associations {
          order := order + [name];
        }
        associations := associations[name := v.a];
        r := Ok(Registered);
      } else if name in associations {
        r := Ok(AssocSet(name, v));
      } else {
        var stem := IdsPrefix(name);
        if stem.Some? && inflector.pluralize(stem.value) in associations
           && associations[inflector.pluralize(stem.value)].kind == HasMany {
          r := Ok(AssocSetIds(inflector.pluralize(stem.value), v));
        } else {
          r := Err(AttributeNotFound(name));
        }
      }
    }

    /** Writes `pairs` in order through `__set`, stopping at the first
        refused write. */
    method WriteEach(pairs: seq<(string, Value)>) returns (err: Option<Error>)
      requires Valid()
      modifies this`attributes, this`associations, this`order, this`isModified
      ensures Valid()
      ensures (State(), err) == WriteAll(schema, inflector.pluralize, old(State()), pairs)
    {
      ghost var s0 := State();
      var k := 0;
      while k < |pairs|
        invariant 0 <= k <= |pairs|
        invariant Valid()
        invariant (State(), None) == WriteAll(schema, inflector.pluralize, s0, pairs[..k])
      {
        assert pairs[..k + 1][..k] == pairs[..k];
        var r := Set(pairs[k].0, pairs[k].1);
        if r.Err? {
          err := Some(r.error);
          WriteAllStop(schema, inflector.pluralize, s0, pairs, k + 1);
          return;
        }
        k := k + 1;
      }
      assert pairs[..k] == pairs;
      err := None;
    }

    /** The body of `__construct($params, $new_record, $is_modified)`: assign
        each declared association, then, for an array of parameters, each
        parameter and the two flags. */
    method Populate(params: Option<seq<(string, Value)>>, newRec: bool, isMod: bool) returns (err: Option<Error>)
      requires Valid() && State() == Blank()
      modifies this`attributes, this`associations, this`order, this`isModified, this`newRecord
      ensures Valid()
      ensures (State(), err) == Construct(schema, inflector.pluralize, params, newRec, isMod)
    {
      err := WriteEach(AllRegistrations(schema));
      if err.None? && params.Some? {
        err := WriteEach(params.value);
        if err.None? {
          isModified := isMod;
          newRecord := newRec;
        }
      }
    }

    /** `__call($name, $args)`: route the call to the association with the
        longest name that starts the method name; the operation is what
        follows `<assoc>_`. */
    method Call(name: string, args: seq<Value>) returns (r: Result<Invocation>)
      ensures r == CallSpec(associations.Keys, name, args)
    {
      var longest := "";
      var rest := associations.Keys;
      while rest != {}
        invariant rest <= associations.Keys
        invariant longest == "" || (longest in associations && longest <= name)
        invariant forall b :: b in associations.Keys - rest && b <= name ==> |b| <= |longest|
        decreases rest
      {
        var a :| a in rest;
        if a <= name && |a| > |longest| {
          longest := a;
        }
        rest := rest - {a};
      }
      if longest != "" {
        CallSpecOf(associations.Keys, name, args, longest);
        match MethodOperation(name, longest)
        case Ok(op) => r := Ok(Invocation(longest, op, args));
        case Err(e) => r := Err(e);
      } else {
        assert forall a :: !IsLongestPrefix(associations.Keys, name, a);
        r := Err(MethodOrAssociationNotFound(name));
      }
    }

    /** `set_modified($val)`: only the modified flag changes; a stored record
        marked unmodified is then saved without a write unless an owner's key
        is written back (`SaveUnmodified`). */
    method SetModified(val: bool)
      requires Valid()
      modifies this`isModified
      ensures Valid() && State() == old(State()).(isModified := val)
    {
      isModified := val;
    }

    /** `save()`.  `generatedId` is the key the INSERT returns, `needs`
        names the associations whose `needs_saving()` answers true, and
        `links` gives the foreign key and owner key each belongs-to
        association writes back (see `OwnersCascade`). */
    method Save(generatedId: Value, needs: set<string>, links: string -> (string, Value)) returns (err: Option<Error>)
      requires Valid()
      modifies this`attributes, this`associations, this`order, this`isModified, this`newRecord, this`log
      ensures Valid()
      ensures State() == SaveSpec(schema, inflector.pluralize, old(State()), generatedId, needs, links).0
      ensures log == old(log) + SaveSpec(schema, inflector.pluralize, old(State()), generatedId, needs, links).1
      ensures err == SaveSpec(schema, inflector.pluralize, old(State()), generatedId, needs, links).2
    {
      ghost var s0, log0 := State(), log;
      ghost var pl := inflector.pluralize;
      ghost var pre := HookEvents(schema, BeforeSave);
      ghost var owners := OwnersCascade(schema, pl, s0, needs, links, s0.order);
      Fire(BeforeSave);
      err := CascadeOwners(needs, links);
      assert State() == owners.0;
      AppendAssoc(log0, pre, owners.1);
      if err.Some? {
        assert SaveSpec(schema, pl, s0, generatedId, needs, links) == (owners.0, pre + owners.1, err);
        return;
      }
      ghost var persisted := PersistStep(schema, pl, owners.0, generatedId);
      err := Persist(generatedId);
      AppendAssoc(log0, pre + owners.1, persisted.1);
      assert State() == persisted.0;
      if err.Some? {
        assert SaveSpec(schema, pl, s0, generatedId, needs, links) == (persisted.0, pre + owners.1 + persisted.1, err);
        return;
      }
      ghost var deps := DependentsCascade(persisted.0, needs, persisted.0.order);
      err := CascadeDependents(needs);
      assert State() == persisted.0 && Valid();
      AppendAssoc(log0, pre + owners.1 + persisted.1, deps.0);
      if err.Some? {
        assert SaveSpec(schema, pl, s0, generatedId, needs, links) == (persisted.0, pre + owners.1 + persisted.1 + deps.0, err);
        return;
      }
      Fire(AfterSave);
      AppendAssoc(log0, pre + owners.1 + persisted.1 + deps.0, HookEvents(schema, AfterSave));
      assert SaveSpec(schema, pl, s0, generatedId, needs, links)
          == (persisted.0, pre + owners.1 + persisted.1 + deps.0 + HookEvents(schema, AfterSave), None);
    }

    /** Runs hook `h` when the class defines it. */
    method Fire(h: Hook)
      modifies this`log
      ensures log == old(log) + HookEvents(schema, h)
    {
      if h in schema.hooks { log := log + [RunHook(h)]; }
    }

    /** The belongs-to pass of `save()`: each owner that needs saving is
        saved, then re-assigned, which writes its key into this record. */
    method CascadeOwners(needs: set<string>, links: string -> (string, Value)) returns (err: Option<Error>)
      requires Valid()
      modifies this`attributes, this`associations, this`order, this`isModified, this`log
      ensures Valid()
      ensures var (t, events, e) := OwnersCascade(schema, inflector.pluralize, old(State()), needs, links, old(order));
        State() == t && log == old(log) + events && err == e
    {
      ghost var s, log0 := State(), log;
      ghost var pl := inflector.pluralize;
      var names, assocs := order, associations;
      var i := 0;
      while i < |names|
        invariant 0 <= i <= |names|
        invariant Valid()
        invariant var c := OwnersCascade(schema, pl, s, needs, links, names[..i]);
          State() == c.0 && log == log0 + c.1 && c.2 == None
      {
        OwnersStep(schema, pl, s, needs, links, names, i);
        ghost var before := OwnersCascade(schema, pl, s, needs, links, names[..i]).1;
        ghost var step := OwnerStep(schema, pl, assocs, needs, links, State(), names[i]).1;
        err := VisitOwner(assocs, needs, links, names[i]);
        AppendAssoc(log0, before, step);
        if err.Some? {
          OwnersStop(schema, pl, s, needs, links, names, i + 1);
          return;
        }
        i := i + 1;
      }
      assert names[..i] == names;
      err := None;
    }

    /** One name of the belongs-to pass; `assocs` are the associations the
        pass walks. */
    method VisitOwner(assocs: map<string, Association>, needs: set<string>, links: string -> (string, Value), n: string)
      returns (err: Option<Error>)
      requires Valid()
      modifies this`attributes, this`associations, this`order, this`isModified, this`log
      ensures Valid()
      ensures var (t, step, e) := OwnerStep(schema, inflector.pluralize, assocs, needs, links, old(State()), n);
        State() == t && log == old(log) + step && err == e
    {
      err := None;
      if n in assocs && assocs[n].kind == BelongsTo && n in needs {
        if frozen {
          log := log + [SaveRelated(n)];
          return Some(ObjectFrozen(n));
        }
        log := log + [SaveRelated(n), ReassignAssociation(n)];
        var r := Set(links(n).0, links(n).1);
        if r.Err? {
          err := Some(r.error);
        }
      }
    }

    /** The insert-or-update step of `save()`. */
    method Persist(generatedId: Value) returns (err: Option<Error>)
      requires Valid()
      modifies this`attributes, this`isModified, this`newRecord, this`log
      ensures Valid()
      ensures var p := PersistStep(schema, inflector.pluralize, old(State()), generatedId);
        State() == p.0 && log == old(log) + p.1 && err == p.2
    {
      err := None;
      if newRecord {
        err := InsertRow(generatedId);
      } else if isModified {
        UpdateRow();
      }
    }

    /** The INSERT branch: a new record is written and takes the generated key. */
    method InsertRow(generatedId: Value) returns (err: Option<Error>)
      requires Valid() && newRecord
      modifies this`attributes, this`isModified, this`newRecord, this`log
      ensures Valid()
      ensures var p := PersistStep(schema, inflector.pluralize, old(State()), generatedId);
        State() == p.0 && log == old(log) + p.1 && err == p.2
    {
      ghost var s0, log0 := State(), log;
      InsertOutcome(schema, inflector.pluralize, s0, generatedId);
      Fire(BeforeCreate);
      var values := InsertValuesOf(NonKeyColumns(schema));
      var ins := Insert(schema.tableName, schema.columns, values);
      log := log + [ins];
      AppendAssoc(log0, HookEvents(schema, BeforeCreate), [ins]);
      if frozen {
        return Some(ObjectFrozen(schema.primaryKey));
      }
      WriteKeepsConsistent(schema, inflector.pluralize, s0, schema.primaryKey, generatedId);
      attributes := attributes[schema.primaryKey := generatedId];
      newRecord, isModified := false, false;
      ghost var log2 := log;
      Fire(AfterCreate);
      AppendAssoc(log0, HookEvents(schema, BeforeCreate) + [ins], HookEvents(schema, AfterCreate));
      err := None;
    }

    /** The UPDATE branch: a modified stored record is written back by key. */
    method UpdateRow()
      requires Valid() && !newRecord && isModified
      modifies this`isModified, this`newRecord, this`log
      ensures Valid()
      ensures var (t, events, e) := PersistStep(schema, inflector.pluralize, old(State()), Null);
        State() == t && log == old(log) + events && e == None
    {
      ghost var s0, log0 := State(), log;
      Fire(BeforeUpdate);
      var values := UpdateValuesOf(NonKeyColumns(schema));
      var upd := Update(schema.tableName, values, schema.primaryKey, ColumnValue(State(), schema.primaryKey));
      log := log + [upd];
      newRecord, isModified := false, false;
      ghost var log2 := log;
      Fire(AfterUpdate);
      assert log == log2 + HookEvents(schema, AfterUpdate);
      assert log == log0 + (HookEvents(schema, BeforeUpdate) + [upd] + HookEvents(schema, AfterUpdate));
    }

    /** The has-one / has-many pass of `save()`. */
    method CascadeDependents(needs: set<string>) returns (err: Option<Error>)
      modifies this`log
      ensures log == old(log) + DependentsCascade(State(), needs, order).0
      ensures err == DependentsCascade(State(), needs, order).1
    {
      ghost var s := State();
      var names, assocs, isFrozen := order, associations, frozen;
      assert s.order == names && s.associations == assocs && s.frozen == isFrozen;
      var events: seq<Event> := [];
      var j := 0;
      while j < |names|
        invariant 0 <= j <= |names|
        invariant events == DependentsCascade(s, needs, names[..j]).0
        invariant log == old(log)
        invariant DependentsCascade(s, needs, names[..j]).1 == None
      {
        DependentsStep(s, needs, names, j);
        var n := names[j];
        if n in assocs && assocs[n].kind == HasOne && n in needs {
          if isFrozen {
            DependentsStop(s, needs, names, j + 1);
            log := log + events;
            assert State() == s;
            return Some(ObjectFrozen(n));
          }
          events := events + [ReassignAssociation(n), SaveRelated(n)];
        } else if n in assocs && assocs[n].kind == HasMany && n in needs {
          events := events + [SaveAsNeeded(n)];
        }
        j := j + 1;
      }
      assert names[..j] == names;
      log := log + events;
      assert State() == s;
      err := None;
    }

    /** The INSERT value list over the current attributes. */
    method InsertValuesOf(cols: seq<string>) returns (values: seq<Value>)
      ensures values == InsertValues(State(), cols)
    {
      values := [];
      var k := 0;
      while k < |cols|
        invariant 0 <= k <= |cols|
        invariant values == InsertValues(State(), cols[..k])
      {
        var c := cols[k];
        values := values + [if c in attributes && attributes[c] != Null then attributes[c] else Str("NULL")];
        k := k + 1;
      }
      assert cols[..k] == cols;
    }

    /** The UPDATE column => value list over the current attributes. */
    method UpdateValuesOf(cols: seq<string>) returns (values: seq<(string, Value)>)
      ensures values == UpdateValues(State(), cols)
    {
      values := [];
      var k := 0;
      while k < |cols|
        invariant 0 <= k <= |cols|
        invariant values == UpdateValues(State(), cols[..k])
      {
        var c := cols[k];
        values := values + [(c, if c in attributes && attributes[c] != Null then attributes[c] else Str("NULL"))];
        k := k + 1;
      }
      assert cols[..k] == cols;
    }

    /** `destroy()`: cascade to every association, delete the row, freeze. */
    method Destroy() returns (ok: bool)
      requires Valid()
      modifies this`frozen, this`log
      ensures Valid() && ok
      ensures State() == old(State()).(frozen := true)
      ensures log == old(log) + DestroyEvents(schema, old(State()))
    {
      LogDestroy();
      frozen := true;
      ok := true;
    }

    /** The events of `destroy()`, in order. */
    method LogDestroy()
      modifies this`log
      ensures log == old(log) + DestroyEvents(schema, State())
    {
      ghost var log0 := log;
      Fire(BeforeDestroy);
      DestroyCascade();
      var del := Delete(schema.tableName, schema.primaryKey, ColumnValue(State(), schema.primaryKey));
      log := log + [del];
      ghost var log3 := log;
      Fire(AfterDestroy);
      assert log == log3 + HookEvents(schema, AfterDestroy);
      assert log == log0 + (HookEvents(schema, BeforeDestroy) + DestroyAssociations(order) + [del] + HookEvents(schema, AfterDestroy));
    }

    /** The association pass of `destroy()`: each association, in order. */
    method DestroyCascade()
      modifies this`log
      ensures log == old(log) + DestroyAssociations(order)
    {
      var names := order;
      ghost var pre := log;
      var i := 0;
      while i < |names|
        invariant 0 <= i <= |names|
        invariant log == pre + DestroyAssociations(names[..i])
      {
        assert names[..i + 1][..i] == names[..i];
        log := log + [DestroyAssociation(names[i])];
        i := i + 1;
      }
      assert names[..i] == names;
    }

    /** `update_attributes($attributes)`: write each pair, then save. */
    method UpdateAttributes(pairs: seq<(string, Value)>, generatedId: Value, needs: set<string>,
                            links: string -> (string, Value)) returns (err: Option<Error>)
      requires Valid()
      modifies this`attributes, this`associations, this`order, this`isModified, this`newRecord, this`log
      ensures Valid()
      ensures var (s, events, e) := UpdateAttributesSpec(schema, inflector.pluralize, old(State()), pairs, generatedId, needs, links);
        State() == s && log == old(log) + events && err == e
    {
      err := WriteEach(pairs);
      if err.Some? { return; }
      err := Save(generatedId, needs, links);
    }
  }
}
