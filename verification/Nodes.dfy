/** A graph node: what was registered, and the changer it wraps, which a deferred node gets only when its
    factory has run. Upstreams are the registration numbers of the nodes depended on. */
module Nodes {
  import opened Outcomes
  import opened Workers

  class ExecutionNode<W(!new)> {
    const spec: Node<W>
    var changer: Option<Changer<W>>

    constructor (spec: Node<W>)
      ensures this.spec == spec && changer == Initial(spec).0
    {
      this.spec := spec;
      changer := match spec.body case Given(c) => Some(c) case Deferred(_, _) => None;
    }

    predicate IsDeferred() {
      spec.body.Deferred?
    }

    /** The wrapped changer's name once there is one. */
    function Name(): (name: string)
      reads this
      ensures changer.Some? ==> name == changer.value.name
      ensures changer == Initial(spec).0 ==> name == spec.Name()
    {
      match changer
      case Some(c) => c.name
      case None => spec.Name()
    }

    method Resolve(c: Changer<W>)
      modifies this
      ensures changer == Some(c) && Name() == c.name
    {
      changer := Some(c);
    }
  }
}
