/** The write-once variable registry that carries values from one changer to a later factory. */
module Registry {
  /** A published value: the names of its type and of the bases of that type, for the checked read, and its
      content. */
  datatype Value = Value(types: set<string>, content: string)

  type Bindings = map<string, Value>

  datatype Query =
    | Get(name: string)
    | Require(name: string, typeName: string)
    | Has(name: string)
    | Snapshot

  datatype Answer =
    | Found(value: Value)
    | NotFound(name: string)
    | WrongType(name: string)
    | Presence(bound: bool)
    | Image(values: Bindings)

  /** What a read sees. Errors are answers, because a factory may handle them. */
  function Lookup(values: Bindings, query: Query): Answer {
    match query
    case Get(name) => if name in values then Found(values[name]) else NotFound(name)
    case Require(name, typeName) =>
      if name !in values then NotFound(name)
      else if typeName !in values[name].types then WrongType(name)
      else Found(values[name])
    case Has(name) => Presence(name in values)
    case Snapshot => Image(values)
  }

  datatype BindResult = Bound | Duplicate(name: string)

  class InMemoryVariableRegistry {
    var values: Bindings

    constructor ()
      ensures values == map[]
    {
      values := map[];
    }

    /** Binds a fresh name and leaves every existing binding alone; a bound name is refused. */
    method Bind(name: string, value: Value) returns (r: BindResult)
      modifies this
      ensures name !in old(values) ==> r == Bound && values == old(values)[name := value]
      ensures name in old(values) ==> r == Duplicate(name) && values == old(values)
    {
      if name in values {
        return Duplicate(name);
      }
      values := values[name := value];
      r := Bound;
    }

    /** Answers one query; a checked read asks for the name of the value's type or of one of its bases. */
    method Read(query: Query) returns (answer: Answer)
      ensures answer == Lookup(values, query)
      ensures query.Get? ==>
                && (forall v :: answer == Found(v) <==> query.name in values && values[query.name] == v)
                && (answer == NotFound(query.name) <==> query.name !in values)
      ensures query.Require? ==>
                && (forall v :: answer == Found(v) <==>
                      query.name in values && values[query.name] == v && query.typeName in v.types)
                && (answer == WrongType(query.name) <==>
                      query.name in values && query.typeName !in values[query.name].types)
                && (answer == NotFound(query.name) <==> query.name !in values)
      ensures query.Has? ==> exists bound :: answer == Presence(bound) && (bound <==> query.name in values)
      ensures query.Snapshot? ==> answer == Image(values)
    {
      match query {
        case Get(name) =>
          if name !in values { return NotFound(name); }
          answer := Found(values[name]);
        case Require(name, typeName) =>
          if name !in values { return NotFound(name); }
          var value := values[name];
          if typeName !in value.types { return WrongType(name); }
          answer := Found(value);
        case Has(name) =>
          answer := Presence(name in values);
        case Snapshot =>
          answer := Image(values);
      }
    }
  }
}
