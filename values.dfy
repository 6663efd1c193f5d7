/** Values an ActiveRecord model stores and passes around, the error taxonomy,
    and the external collaborators the core calls but does not define. */
module Values {

  datatype Option<+T> = None | Some(value: T)

  /** The exceptions the model raises (ActiveRecord\Exception codes). */
  datatype Error =
    | AttributeNotFound(name: string)
    | ObjectFrozen(name: string)
    | MethodOrAssociationNotFound(name: string)
    /** `__call` found an association prefix but no `<assoc>_` separator,
        so PHP is left with no method name to invoke. */
    | MissingOperation(name: string)
    | RecordNotFound

  datatype Result<+T> = Ok(value: T) | Err(error: Error)

  /** The three association classes, in the order the constructor sets them up. */
  datatype AssocKind = BelongsTo | HasMany | HasOne

  /** What an association's `join()` hands back for eager loading: the joined
      table with its column list, and the SQL join fragment. */
  datatype JoinSpec = JoinSpec(table: string, columns: seq<string>, sql: string)

  /** An association object.  Its behaviour (get, set, get_ids, ...) lives in
      code outside this model; only what the model consults is kept. */
  datatype Association = Association(kind: AssocKind, name: string, options: Option<Value>, join: JoinSpec)

  /** A PHP value as far as the model distinguishes them. */
  datatype Value =
    | Null
    | Str(s: string)
    | Arr(items: seq<Value>)
    | Assoc(a: Association)

  /** A declared association: a bare name, or a name with an options array. */
  datatype AssocDecl = AssocDecl(name: string, options: Option<Value>, join: JoinSpec)

  /** Foreign inflection utilities, as opaque total functions. */
  datatype Inflector = Inflector(pluralize: string -> string, tableize: string -> string)

  /** The static declaration of one model class. */
  datatype Schema = Schema(
    className: string,
    tableName: string,
    primaryKey: string,
    columns: seq<string>,
    belongsTo: seq<AssocDecl>,
    hasMany: seq<AssocDecl>,
    hasOne: seq<AssocDecl>,
    hooks: set<Hook>)

  /** The optional lifecycle callbacks a subclass may define. */
  datatype Hook =
    | BeforeSave | AfterSave
    | BeforeCreate | AfterCreate
    | BeforeUpdate | AfterUpdate
    | BeforeDestroy | AfterDestroy

  /** The primary key is one of the declared columns. */
  predicate WellFormed(schema: Schema)
  {
    schema.primaryKey in schema.columns
  }
}
