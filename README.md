# Event listener pipeline set

A Dafny model of `EventListenerPipelineSet` from the luna game server. The
class routes game events to their handlers. It maps each event type to exactly
one *pipeline*, which is the ordered chain of listeners registered for that
type. Its operations:

- `get` looks up the pipeline of a type and creates an empty one on a miss (`computeIfAbsent`).
- `getTyped` is `get` with a narrowed static type.
- `add` files a listener under its declared type. It drops a listener whose type is not an `Event` type.
- `replaceAll` swaps in another set's pipelines wholesale, for plugin reloads.
- `iterator` and `size` are read-only.

Two files, one module each:

- `event_listeners.dfy` (module `EventListeners`) holds the collaborators.
  - `TypeKey` stands for a Java `Class<?>`: a name plus the names of all its supertypes.
  - `IsEventType(k)` is `Event.class.isAssignableFrom(k)`: `k` is `Event` or a subtype of it.
  - `EventListener` is an object with a constant declared type.
  - `EventListenerPipeline` is an object with a constant key and a mutable listener sequence.
- `pipeline_set.dfy` (module `PipelineSet`) holds the object invariant, the pure specification, the lemmas and the class `EventListenerPipelineSet`.
  - The object invariant `Consistent`: every key is bound to a pipeline that was constructed for that key.
  - The pure specification is the *listener table*, a map from each key to its chain of listeners. `GetTable` and `AddTable` say what `get` and `add` do to it.
  - The lemmas cover sequences of `add` calls.
  - The class `EventListenerPipelineSet` keeps the source's one mutable field, the map `pipelines`. Every method keeps `Valid()`, which is `Consistent(pipelines)`.
  - Each mutating method is specified twice. It ties the new map of pipeline *objects* to the old one (identity, freshness, sharing). It also states the new listener table `Listeners()`. For `Get` and `Add` that table is a function of the old table. For `ReplaceAll` it is the source set's table as it was at the call.

Sharing is modelled as in the source. After `replaceAll`, two sets hold the
same pipeline objects. A later `add` through either set changes the chain seen
through both. A pipeline fetched before a reload stays usable but stale. The
client `ReloadScenario` shows this next to registration order.

Points of the code that the model keeps:

- `get` has no event-type filter. Only `add` filters. A `get` on a key that is not an event type still creates a pipeline for it.
- The map is a plain, unsynchronised `HashMap`. `replaceAll` is two steps, `clear()` then `putAll`. The model is sequential.
- A dropped listener creates no pipeline (`AddAllKeys`). `replaceAll` sets the count to the source's.
- `replaceAll` given the set itself empties it. `clear()` runs before `putAll` of that same, now empty map. The model states this case. It does not exclude it.

## Model

| member | source | states |
|---|---|---|
| `EventListeners.EventListenerPipeline.constructor` | src/main/java/io/luna/game/event/EventListenerPipelineSet.java:42 | a pipeline made by `EventListenerPipeline::new` is bound to the key it was given and starts with no listeners |
| `EventListeners.EventListenerPipeline.Add` | src/main/java/io/luna/game/event/EventListenerPipelineSet.java:31 | `pipeline.add` appends the listener at the end of the chain, so chain order is registration order (an assumption, see Left out) |
| `PipelineSet.ConsistentValuesCount` | src/main/java/io/luna/game/event/EventListenerPipelineSet.java:20 | in a map where each key is bound to a pipeline built for that key, no pipeline is bound twice, so there are as many pipelines as keys |
| `PipelineSet.GetTable` | src/main/java/io/luna/game/event/EventListenerPipelineSet.java:41-43 | after `get(k)` the key `k` has a chain: its old chain on a hit, an empty one on a miss; every other key keeps its chain; the count grows by one exactly on a miss |
| `PipelineSet.AddTable` | src/main/java/io/luna/game/event/EventListenerPipelineSet.java:27-33 | `add` of a listener of an event type (`IsEventType`, which renders `Event.class.isAssignableFrom` at line 29) appends it to that type's chain (creating the chain if needed) and leaves the other chains alone; `add` of any other listener leaves the table exactly as it was |
| `PipelineSet.AddAllChain` | src/main/java/io/luna/game/event/EventListenerPipelineSet.java:27-33 | after any series of `add` calls, each key's chain is its old chain followed by exactly the non-dropped listeners declared for that key, in the order they were added |
| `PipelineSet.AddAllKeys` | src/main/java/io/luna/game/event/EventListenerPipelineSet.java:27-33 | after any series of `add` calls, a key has a pipeline if and only if it had one before or some non-dropped listener was filed under it |
| `PipelineSet.EventListenerPipelineSet.constructor` | src/main/java/io/luna/game/event/EventListenerPipelineSet.java:20 | a new set has an empty map and satisfies the key/pipeline invariant |
| `PipelineSet.EventListenerPipelineSet.Add` | src/main/java/io/luna/game/event/EventListenerPipelineSet.java:27-33 | keeps the invariant; the new listener table is `AddTable` of the old one; the map of pipeline objects changes only when an event-type listener's key was missing, and then only by one fresh pipeline under that key; a dropped listener changes nothing |
| `PipelineSet.EventListenerPipelineSet.Get` | src/main/java/io/luna/game/event/EventListenerPipelineSet.java:41-43 | returns a pipeline bound to the key; on a hit it is the very object already in the map and the map is unchanged; on a miss it is a fresh empty pipeline, inserted under the key, and the size grows by exactly one; all other entries are unchanged and the invariant is kept |
| `PipelineSet.EventListenerPipelineSet.GetTyped` | src/main/java/io/luna/game/event/EventListenerPipelineSet.java:52-55 | for a key of an event type, exactly the result and the effect of `get` |
| `PipelineSet.EventListenerPipelineSet.ReplaceAll` | src/main/java/io/luna/game/event/EventListenerPipelineSet.java:62-65 | for another set: this set's map becomes the source's map as it was at the call, so it holds the same pipeline objects and no key that only its own old map held survives; the listener table is the source's; the source is unchanged; given itself, the set ends empty |
| `PipelineSet.EventListenerPipelineSet.Iterator` | src/main/java/io/luna/game/event/EventListenerPipelineSet.java:67-71 | yields every pipeline of the map exactly once (no order is promised), only pipelines of the map, as many as `size()`, and changes nothing |
| `PipelineSet.EventListenerPipelineSet.Size` | src/main/java/io/luna/game/event/EventListenerPipelineSet.java:78-80 | the number of pipelines held (distinct pipeline objects, not listeners) |
| `PipelineSet.GetTwice` | src/main/java/io/luna/game/event/EventListenerPipelineSet.java:42 | two successive `get` calls for one key return the same pipeline object, which is bound to that key, and only the first call can change the map |

## Left out

- `YamlParser` and the `destroyItem` plugin script are not part of this model. The first is a wrapper around file I/O, a YAML library and logging. The second is a button handler that calls interface APIs not modelled here.
- Concurrency: the map is a plain unsynchronised `HashMap`. The model is sequential. It claims no atomicity for `computeIfAbsent` or `replaceAll` and no thread-safety.
- Java reflection and the unchecked cast in `getTyped`. A `Class<?>` becomes the value type `TypeKey`. The `<E extends Event>` bound becomes the requirement `IsEventType` on `GetTyped`.
- `EventListenerPipeline` and `EventListener` are not part of this model beyond a key and the listener sequence. `pipeline.add` is assumed to append at the end. Invoking listeners and dispatching events are not modelled.
- `PipelineSet.EventListenerPipelineSet.Iterator`: the Guava `UnmodifiableIterator` becomes a sequence built once, so it is a snapshot. The model does not cover a lazy, live view or `HashMap` iteration order. Its read-only property holds because a sequence value cannot be used to change the map.
- `PipelineSet.EventListenerPipelineSet.Size`: `HashMap.size()` returns a Java `int` and saturates at `Integer.MAX_VALUE`. The model counts with an unbounded `nat`.
- Null arguments. Dafny references here are non-null, so this case does not arise. In the source, `replaceAll(null)` first runs `pipelines.clear()` (line 63), and only then does `set.pipelines` (line 64) throw a `NullPointerException`. A null reload therefore wipes every listener and then fails; it does not fail fast.
- Every method requires `Valid()` of the sets involved, including the source of `ReplaceAll`. The source never checks this. It holds of every set, because the map is private, starts empty and is kept consistent by each operation.
