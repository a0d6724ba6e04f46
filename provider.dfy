/**
 * The calendar provider the engine talks to: entity resolution, the events an
 * entity returns for the sync window, and a log of the create and delete calls
 * the engine issues. Calls complete one at a time, in the order issued.
 */
module CalendarProvider {
  import opened Wrappers
  import opened EventIdentity

  /** One call into the provider. */
  datatype ProviderOp =
    | CreateCall(payload: CreatePayload)               // services "calendar"/"create_event"
    | DeleteCall(entityId: string, uid: Option<string>) // entity.async_delete_event(uid)

  class Provider {
    /** The entities that resolve, each with the records it returns for the sync window. */
    const entities: map<string, seq<EventData>>
    /** Every create and delete call so far, oldest first. */
    var log: seq<ProviderOp>

    constructor(entities: map<string, seq<EventData>>)
      ensures this.entities == entities && log == []
    {
      this.entities := entities;
      log := [];
    }

    method CreateEvent(payload: CreatePayload)
      modifies this
      ensures log == old(log) + [CreateCall(payload)]
    {
      log := log + [CreateCall(payload)];
    }

    method DeleteEvent(entityId: string, uid: Option<string>)
      modifies this
      ensures log == old(log) + [DeleteCall(entityId, uid)]
    {
      log := log + [DeleteCall(entityId, uid)];
    }
  }
}
