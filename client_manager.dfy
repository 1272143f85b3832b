/** broker/client_manager.go: the registry from clients to the writers
    their packets go out on. The registry is keyed here by `ClientID`:
    the handler and its test look clients up by a freshly built `Client`
    carrying the same id, which only a lookup by id value satisfies. */
module Clients {
  import opened BrokerTypes

  /** No id occurs twice. */
  ghost predicate Distinct(ids: seq<ClientID>)
  {
    forall j, k :: 0 <= j < k < |ids| ==> ids[j] != ids[k]
  }

  /** `ClientManager`. */
  class ClientManager {
    var clients: map<ClientID, WriterId>

    /** `NewClientManager`: no client registered. */
    constructor ()
      ensures clients == map[]
    {
      clients := map[];
    }

    /** `ClientManager.Add`: `id` now maps to `w`, replacing any earlier
        writer (last write wins), and every other entry is as it was. */
    method Add(id: ClientID, w: WriterId)
      modifies this
      ensures id in clients && clients[id] == w
      ensures clients.Keys == old(clients.Keys) + {id}
      ensures forall other :: other != id && other in old(clients) ==> clients[other] == old(clients[other])
    {
      clients := clients[id := w];
    }

    /** `ClientManager.List`: every registered client exactly once, in no
        particular order, without changing the registry. */
    method List() returns (ids: seq<ClientID>)
      ensures |ids| == |clients|
      ensures Distinct(ids)
      ensures forall k :: 0 <= k < |ids| ==> ids[k] in clients
      ensures forall id :: id in clients ==> id in ids
    {
      ids := [];
      var rest := clients.Keys;
      while rest != {}
        invariant rest <= clients.Keys
        invariant |ids| + |rest| == |clients.Keys|
        invariant Distinct(ids)
        invariant forall k :: 0 <= k < |ids| ==> ids[k] in clients && ids[k] !in rest
        invariant forall id :: id in clients ==> id in ids || id in rest
        decreases rest
      {
        var id :| id in rest;
        ids := ids + [id];
        rest := rest - {id};
      }
      assert |clients.Keys| == |clients|;
    }

    /** The `Get` lookup the handler relies on: the writer registered for
        `id`, or nothing when the id never connected. */
    method Get(id: ClientID) returns (w: Option<WriterId>)
      ensures w.Some? <==> id in clients
      ensures w.Some? ==> w.value == clients[id]
    {
      if id in clients {
        w := Some(clients[id]);
      } else {
        w := None;
      }
    }
  }
}
