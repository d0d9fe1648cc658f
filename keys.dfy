// The reserved names of the world's components, resources and events.
// The key table of the source (src/lib/keys.ts) is not part of this model.
// Every string is a documented reserved key except `stage-changes`, whose
// value the model assumes: only its constant name, `STAGE_CHANGES`, appears
// in the modelled code.

module Keys {
  /** The component every living entity carries, valued by its own id. */
  const IdKey: string := "id"

  /** The event list on which the world records every change it applies. */
  const RawChangesKey: string := "raw-changes"

  /** The resource holding how much of the raw log is already split into events. */
  const RawChangesIndexKey: string := "raw-changes-index"

  /** The resource holding the largest id ever created. */
  const MaxIdKey: string := "max-id"

  /** The resource holding the ids free for reuse, as a set. */
  const RevivalStackKey: string := "entity-revival-stack"

  /** The event list of entities whose components are still to be deleted. */
  const DeathsDoorKey: string := "entity-deaths-door"

  /** The resource mapping each stage to its systems. */
  const SystemsKey: string := "systems"

  /** The resource mapping a system to the names of the systems it runs after. */
  const SystemDependenciesKey: string := "system-dependencies"

  /** The resource caching each stage's batches. */
  const StageBatchesKey: string := "stage-batches"

  /** The resource naming the stages whose systems changed (the string is assumed). */
  const StageChangesKey: string := "stage-changes"
}
