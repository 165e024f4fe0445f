/**
 * The comms RPC module (src/controllers/rpc/comms.ts): client topics are
 * salted with a fixed prefix before they reach the broker, so that clients
 * cannot address the service's own subjects, and unsalted on the way back.
 */
module Comms {
  import opened Js
  import opened MessageBroker

  const SaltedPrefix: string := "client-proto."

  /** `saltTopic` (comms.ts:26-28). */
  function SaltTopic(topic: string): (r: string)
    ensures StartsWith(r, SaltedPrefix) && |r| == |SaltedPrefix| + |topic|
  {
    SaltedPrefix + topic
  }

  /** `unsaltTopic` (comms.ts:31-36): drop the prefix when present. */
  function UnsaltTopic(topic: string): (r: string)
    ensures StartsWith(topic, SaltedPrefix) ==> SaltTopic(r) == topic
    ensures !StartsWith(topic, SaltedPrefix) ==> r == topic
  {
    if StartsWith(topic, SaltedPrefix) then topic[|SaltedPrefix|..] else topic
  }

  /** Unsalting undoes salting. */
  lemma UnsaltSalt(topic: string)
    ensures UnsaltTopic(SaltTopic(topic)) == topic
  {
    assert (SaltedPrefix + topic)[|SaltedPrefix|..] == topic;
  }

  /** Unsalting removes one prefix only. */
  lemma UnsaltOnce(topic: string)
    ensures UnsaltTopic(SaltTopic(SaltTopic(topic))) == SaltTopic(topic)
  {
    UnsaltSalt(SaltTopic(topic));
  }

  /** The prefix adds one leading segment. */
  lemma SaltSegments(topic: string)
    ensures Segments(SaltTopic(topic)) == ["client-proto"] + Segments(topic)
  {
    assert SaltedPrefix + topic == "client-proto" + ['.'] + topic;
    SplitAfterPiece("client-proto", '.', topic);
  }

  /** Salting both sides does not change whether a subscription matches. */
  lemma SaltKeepsMatching(pattern: string, topic: string)
    ensures Matches(SaltTopic(pattern), SaltTopic(topic)) <==> Matches(pattern, topic)
  {
    SaltSegments(pattern);
    SaltSegments(topic);
    var sp, st := Segments(pattern), Segments(topic);
    if Matches(pattern, topic) {
      forall i | 0 <= i < |st| + 1
        ensures (["client-proto"] + sp)[i] == "*" || (["client-proto"] + sp)[i] == (["client-proto"] + st)[i]
      {
        if i > 0 {
          assert sp[i - 1] == "*" || sp[i - 1] == st[i - 1];
        }
      }
    }
    if Matches(SaltTopic(pattern), SaltTopic(topic)) {
      forall i | 0 <= i < |st|
        ensures sp[i] == "*" || sp[i] == st[i]
      {
        assert (["client-proto"] + sp)[i + 1] == sp[i];
        assert (["client-proto"] + st)[i + 1] == st[i];
      }
    }
  }

  /** A message as the subscriber receives it. */
  datatype TopicMessage = TopicMessage(payload: Bytes, topic: string, sender: string)

  /** `publishToTopic` (comms.ts:10-16): the payload is published on the
   *  salted topic; the call always reports success. */
  method PublishToTopic(broker: LocalBroker, topic: string, payload: Bytes) returns (ok: bool)
    requires broker.Valid()
    modifies broker.channels.Values
    ensures broker.Valid() && ok
    ensures forall p :: p in broker.channels ==>
      broker.channels[p].messages ==
        old(broker.channels[p].messages) + (if Matches(p, SaltTopic(topic)) then [NatsMsg(SaltTopic(topic), payload)] else [])
  {
    broker.Publish(SaltTopic(topic), payload);
    ok := true;
  }

  /** The body of `subscribeToTopic`'s loop (comms.ts:19-21): every message is
   *  passed on in order, with its subject unsalted and sender `0x0`. */
  method ForwardMessages(messages: seq<NatsMsg>) returns (out: seq<TopicMessage>)
    ensures |out| == |messages|
    ensures forall i :: 0 <= i < |out| ==>
      out[i].payload == messages[i].data && out[i].sender == "0x0"
      && (StartsWith(messages[i].subject, SaltedPrefix) ==> SaltTopic(out[i].topic) == messages[i].subject)
      && (!StartsWith(messages[i].subject, SaltedPrefix) ==> out[i].topic == messages[i].subject)
  {
    out := [];
    var i := 0;
    while i < |messages|
      invariant 0 <= i <= |messages| && |out| == i
      invariant forall k :: 0 <= k < i ==> out[k] == TopicMessage(messages[k].data, UnsaltTopic(messages[k].subject), "0x0")
    {
      var message := messages[i];
      out := out + [TopicMessage(message.data, UnsaltTopic(message.subject), "0x0")];
      i := i + 1;
    }
  }

  /** `subscribeToTopic` (comms.ts:17-18): subscribe on the salted topic. */
  method SubscribeToTopic(broker: LocalBroker, topic: string) returns (ch: Channel)
    requires broker.Valid()
    modifies broker
    ensures broker.Valid() && fresh(ch) && ch.messages == [] && !ch.closed
    ensures ch.pattern == SaltTopic(topic) && broker.channels == old(broker.channels)[SaltTopic(topic) := ch]
  {
    ch := broker.Subscribe(SaltTopic(topic));
  }

  /** A client that subscribed to `sub` and a client that publishes on `pub`:
   *  the subscriber receives the message exactly when `sub` matches `pub`, and
   *  sees it under the publisher's topic. */
  method SubscribeThenPublish(broker: LocalBroker, sub: string, pub: string, payload: Bytes)
    returns (received: seq<TopicMessage>)
    requires broker.Valid()
    modifies broker, broker.channels.Values
    ensures Matches(sub, pub) ==> received == [TopicMessage(payload, pub, "0x0")]
    ensures !Matches(sub, pub) ==> received == []
  {
    var ch := SubscribeToTopic(broker, sub);
    var _ := PublishToTopic(broker, pub, payload);
    SaltKeepsMatching(sub, pub);
    UnsaltSalt(pub);
    assert SaltTopic(sub) in broker.channels && broker.channels[SaltTopic(sub)] == ch;
    received := ForwardMessages(ch.messages);
  }
}
