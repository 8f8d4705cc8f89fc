/**
  `singleton(class_)`: each decoration creates its own `instances` dict and returns
  `get_instance`, which calls the class on the first call only and afterwards returns the
  stored instance whatever the arguments.
*/
module Singleton {
  import opened Wrappers

  /** The state one `singleton(class_)` call creates. `A` stands for the arguments of a
      call, `make` for calling the decorated class (which may raise an `E`). */
  class Registry<A, T, E> {
    /** Identity of the decorated class, the key of `instances`. */
    const cls: string
    /** `class_(*args, **kwargs)`. */
    const make: A -> Result<T, E>
    /** The `instances` dict. */
    var instances: map<string, T>
    /** The arguments of every call that reached `class_`, in order. */
    ghost var calls: seq<A>

    /** Only the decorated class is ever a key; the class was called again only after a call
        that raised; the stored instance is what the last, successful, call built. */
    ghost predicate Valid()
      reads this
    {
      && instances.Keys <= {cls}
      && (forall i :: 0 <= i < |calls| - 1 ==> make(calls[i]).Failure?)
      && (cls in instances <==> |calls| > 0 && make(calls[|calls| - 1]).Success?)
      && (cls in instances ==> instances[cls] == make(calls[|calls| - 1]).value)
    }

    /** `singleton(class_)`: a fresh, empty registry of its own. */
    constructor (cls: string, make: A -> Result<T, E>)
      ensures Valid()
      ensures this.cls == cls && this.make == make
      ensures instances == map[] && calls == []
    {
      this.cls := cls;
      this.make := make;
      instances := map[];
      calls := [];
    }

    /** `get_instance(*args, **kwargs)`. */
    method GetInstance(args: A) returns (r: Result<T, E>)
      requires Valid()
      modifies this
      ensures Valid()
      ensures old(cls in instances) ==>
        r == Success(old(instances[cls])) && instances == old(instances) && calls == old(calls)
      ensures old(cls !in instances) ==>
        r == make(args) && calls == old(calls) + [args] &&
        instances == (if r.Success? then map[cls := r.value] else old(instances))
      ensures r.Success? ==> cls in instances && r.value == instances[cls]
    {
      if cls !in instances {
        var made := make(args);
        calls := calls + [args];
        if made.Failure? {
          return Failure(made.error);
        }
        instances := instances[cls := made.value];
      }
      r := Success(instances[cls]);
    }
  }
}
