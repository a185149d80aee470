/**
 * The server's registry of connected edge devices: device id to the
 * protocol of its websocket, in the order the devices first connected.
 *
 * A protocol is represented by an identifier; what the registry does to
 * protocols (disconnecting one, sending a message through one) is recorded
 * in an event log, in the order it happens.
 */
module ServerConnection {
  import opened Wrappers
  import opened Uniqueness
  import opened Messages

  type ProtocolId = int

  datatype Event = Disconnected(protocol: ProtocolId) | Sent(protocol: ProtocolId, message: CarlosMessage)

  /** The handshake sent to every newly added device: the version of the edge device package. */
  function EdgeVersionMessage(version: string): (m: CarlosMessage)
    ensures Valid(m) && m.messageType == EdgeVersion
    ensures m.payload.value.fields == map["version" := version]
  {
    CarlosMessage(EdgeVersion, Some(Payload(EdgeVersionPayload, map["version" := version])))
  }

  /** One `Sent` event per device of `order`, in that order, through its protocol. */
  function BroadcastEvents(order: seq<string>, conns: map<string, ProtocolId>, message: CarlosMessage): (es: seq<Event>)
    requires forall d :: d in order ==> d in conns
    ensures |es| == |order|
    ensures forall i :: 0 <= i < |order| ==> es[i] == Sent(conns[order[i]], message)
  {
    if |order| == 0 then []
    else BroadcastEvents(order[..|order| - 1], conns, message) + [Sent(conns[order[|order| - 1]], message)]
  }

  class DeviceConnectionManager {
    /** The device ids in insertion order, the order of the dictionary's keys. */
    var order: seq<string>
    var conns: map<string, ProtocolId>
    var events: seq<Event>

    ghost predicate Valid()
      reads this
    {
      NoDuplicates(order) && (forall d :: d in order <==> d in conns)
    }

    constructor ()
      ensures Valid() && order == [] && conns == map[] && events == []
    {
      order := [];
      conns := map[];
      events := [];
    }

    /** `connected_devices`: every connected id, once each, in the order they connected. */
    method ConnectedDevices() returns (r: seq<string>)
      requires Valid()
      ensures r == order
      ensures NoDuplicates(r) && forall d :: d in r <==> d in conns
    {
      r := order;
    }

    /**
     * `add_device`: an id already connected has its old protocol disconnected
     * and replaced in its original position; then the new protocol is sent
     * the edge version handshake.
     */
    method AddDevice(deviceId: string, protocol: ProtocolId, version: string)
      requires Valid()
      modifies this
      ensures Valid()
      ensures order == AppendIfAbsent(old(order), deviceId)
      ensures conns == old(conns)[deviceId := protocol]
      ensures events == old(events)
        + (if deviceId in old(conns) then [Disconnected(old(conns)[deviceId])] else [])
        + [Sent(protocol, EdgeVersionMessage(version))]
    {
      if deviceId in conns {
        events := events + [Disconnected(conns[deviceId])];
      }
      AppendIfAbsentKeepsNoDuplicates(order, deviceId);
      order := AppendIfAbsent(order, deviceId);
      conns := conns[deviceId := protocol];
      events := events + [Sent(protocol, EdgeVersionMessage(version))];
    }

    /** `remove`: drops the id if present; nothing is sent. */
    method Remove(deviceId: string)
      requires Valid()
      modifies this
      ensures Valid()
      ensures order == Without(old(order), deviceId)
      ensures conns == old(conns) - {deviceId}
      ensures events == old(events)
    {
      WithoutProperties(order, deviceId);
      order := Without(order, deviceId);
      conns := conns - {deviceId};
    }

    /** `broadcast`: the message goes once through the protocol of every connected device, in order. */
    method Broadcast(message: CarlosMessage)
      requires Valid()
      modifies this
      ensures Valid() && order == old(order) && conns == old(conns)
      ensures events == old(events) + BroadcastEvents(order, conns, message)
    {
      var sent := SendAll(order, conns, message);
      events := events + sent;
    }
  }

  /** The loop of `broadcast`, over the values of the dictionary in key order. */
  method SendAll(order: seq<string>, conns: map<string, ProtocolId>, message: CarlosMessage) returns (sent: seq<Event>)
    requires forall d :: d in order ==> d in conns
    ensures sent == BroadcastEvents(order, conns, message)
  {
    sent := [];
    for i := 0 to |order|
      invariant sent == BroadcastEvents(order[..i], conns, message)
    {
      assert order[..i + 1][..i] == order[..i];
      sent := sent + [Sent(conns[order[i]], message)];
    }
    assert order[..|order|] == order;
  }

  /** A broadcast reaches exactly the protocols of the connected devices: one never registered, or removed, gets nothing. */
  lemma BroadcastReachesExactlyConnected(order: seq<string>, conns: map<string, ProtocolId>, message: CarlosMessage, p: ProtocolId)
    requires forall d :: d in order <==> d in conns
    ensures Sent(p, message) in BroadcastEvents(order, conns, message) <==> exists d :: d in conns && conns[d] == p
    ensures forall e :: e in BroadcastEvents(order, conns, message) ==> e.Sent? && e.message == message
  {
    var es := BroadcastEvents(order, conns, message);
    if exists d :: d in conns && conns[d] == p {
      var d :| d in conns && conns[d] == p;
      var i :| 0 <= i < |order| && order[i] == d;
      assert es[i] == Sent(p, message);
    }
  }

  /**
   * When no two devices share a protocol, the broadcast events through a
   * device's protocol are exactly the one at that device's position.
   */
  lemma BroadcastOncePerDevice(order: seq<string>, conns: map<string, ProtocolId>, message: CarlosMessage, d: string)
    requires forall x :: x in order <==> x in conns
    requires forall x, y :: x in conns && y in conns && x != y ==> conns[x] != conns[y]
    requires d in conns
    ensures forall i :: 0 <= i < |order| ==>
      (BroadcastEvents(order, conns, message)[i].protocol == conns[d] <==> order[i] == d)
  {
  }

  /** Removing twice is removing once, and removing an unknown id changes nothing. */
  lemma RemoveIdempotent(order: seq<string>, conns: map<string, ProtocolId>, deviceId: string)
    ensures Without(Without(order, deviceId), deviceId) == Without(order, deviceId)
    ensures (conns - {deviceId}) - {deviceId} == conns - {deviceId}
    ensures deviceId !in order ==> Without(order, deviceId) == order
    ensures deviceId !in conns ==> conns - {deviceId} == conns
  {
    WithoutProperties(order, deviceId);
    assert deviceId !in Without(order, deviceId);
    WithoutProperties(Without(order, deviceId), deviceId);
    RemoveKeyIdempotent(conns, deviceId);
  }

  lemma RemoveKeyIdempotent(conns: map<string, ProtocolId>, deviceId: string)
    ensures (conns - {deviceId}) - {deviceId} == conns - {deviceId}
    ensures deviceId !in conns ==> conns - {deviceId} == conns
  {
    assert ((conns - {deviceId}) - {deviceId}).Keys == (conns - {deviceId}).Keys;
    if deviceId !in conns {
      assert (conns - {deviceId}).Keys == conns.Keys;
    }
  }

  /** Adding devices a, b and re-adding a lists them as a, b with a's new protocol. */
  lemma ReAddKeepsPosition()
    ensures AppendIfAbsent(AppendIfAbsent(AppendIfAbsent([], "a"), "b"), "a") == ["a", "b"]
    ensures map["a" := 1]["b" := 2]["a" := 3] == map["a" := 3, "b" := 2]
  {
    assert "a" in ["a", "b"];
  }
}
