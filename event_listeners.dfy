/**
 * The collaborators of the pipeline set: event type keys, listeners and the
 * per-type listener pipeline.
 *
 * A type key stands for a Java `Class<?>` object. Only two things about it
 * matter to the pipeline set: its identity (it is a map key) and whether it is
 * the `Event` class or one of its subtypes (`Event.class.isAssignableFrom`).
 */
module EventListeners {

  /** The fully qualified name of the root of the event hierarchy. */
  const EventClassName: string := "io.luna.game.event.Event"

  /**
   * A runtime type. `supertypes` holds the names of every class and interface
   * the type is assignable to, other than itself.
   */
  datatype TypeKey = TypeKey(name: string, supertypes: set<string>)

  /** `Event.class.isAssignableFrom(k)`: `k` is `Event` itself or a subtype of it. */
  predicate IsEventType(k: TypeKey) {
    k.name == EventClassName || EventClassName in k.supertypes
  }

  /** A listener declares, once and for all, the event type it observes. */
  class EventListener {
    const eventType: TypeKey

    constructor (eventType: TypeKey)
      ensures this.eventType == eventType
    {
      this.eventType := eventType;
    }
  }

  /**
   * The ordered chain of listeners for one event type. It is bound to the key
   * it was constructed with for its whole life (`eventType` is a constant), and
   * listeners are only ever appended, so that the chain's order is the order of
   * registration.
   */
  class EventListenerPipeline {
    const eventType: TypeKey
    var listeners: seq<EventListener>

    /** `new EventListenerPipeline(eventType)`: an empty chain for `eventType`. */
    constructor (eventType: TypeKey)
      ensures this.eventType == eventType
      ensures listeners == []
    {
      this.eventType := eventType;
      listeners := [];
    }

    /** `pipeline.add(listener)`: append `listener` at the end of the chain. */
    method Add(listener: EventListener)
      modifies this
      ensures listeners == old(listeners) + [listener]
    {
      listeners := listeners + [listener];
    }
  }
}
