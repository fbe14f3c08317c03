/**
  The strategy registry both factories are built on: a map from strategy to the
  initializer and service scope registered for it. Creating an instance looks up
  the registration and hands it the init arguments.
*/
module Factory {

  datatype ServiceScope = Transient | Singleton

  datatype Registration<I> = Registration(initializer: I, scope: ServiceScope)

  /** What the registry is asked to build: the registered initializer, its scope and
      the init arguments. */
  datatype Creation<I, A> = Creation(initializer: I, scope: ServiceScope, initArgs: A)

  /** An unregistered strategy, with the strategies registered at the time. */
  datatype FactoryError<K> = NotRegistered(strategy: K, registered: set<K>)

  class Factory<K(==), I> {
    var registrations: map<K, Registration<I>>

    constructor ()
      ensures registrations == map[]
    {
      registrations := map[];
    }

    /** `strategy in factory`. */
    predicate Contains(strategy: K)
      reads this
    {
      strategy in registrations
    }

    /** Registering a strategy replaces any earlier registration of it and touches
        no other strategy. */
    method Register(strategy: K, initializer: I, scope: ServiceScope)
      modifies this
      ensures registrations == old(registrations)[strategy := Registration(initializer, scope)]
    {
      registrations := registrations[strategy := Registration(initializer, scope)];
    }

    /** The instance the registry builds for a registered strategy. */
    function Create<A>(strategy: K, initArgs: A): (c: Creation<I, A>)
      requires Contains(strategy)
      reads this
      ensures c.initializer == registrations[strategy].initializer && c.scope == registrations[strategy].scope
      ensures c.initArgs == initArgs
    {
      Creation(registrations[strategy].initializer, registrations[strategy].scope, initArgs)
    }
  }
}
