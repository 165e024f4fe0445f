/**
 * The in-process message broker used by the integration tests
 * (test/helpers/message-broker.ts): a table from subscription pattern to
 * channel, and `*`-per-segment subject matching on publish.
 */
module MessageBroker {
  import opened Js

  type Bytes = seq<bv8>

  /** A message delivered to a subscriber (`NatsMsg`). */
  datatype NatsMsg = NatsMsg(subject: string, data: Bytes)

  /** Subjects and patterns are split on dots into segments. */
  function Segments(s: string): seq<string> {
    Split(s, '.')
  }

  /** The matching rule of `publish`: the same number of segments, and every
   *  pattern segment is `*` or equals the subject's segment. */
  predicate Matches(pattern: string, subject: string) {
    var sp, st := Segments(pattern), Segments(subject);
    |sp| == |st| && forall i :: 0 <= i < |st| ==> sp[i] == "*" || sp[i] == st[i]
  }

  /** The segment loop of `publish` (message-broker.ts:20-31), with its early
   *  returns. */
  method SegmentsMatch(pattern: string, topic: string) returns (matched: bool)
    ensures matched <==> Matches(pattern, topic)
  {
    var sPattern := Segments(pattern);
    var sTopic := Segments(topic);
    if |sPattern| != |sTopic| {
      return false;
    }
    var i := 0;
    while i < |sTopic|
      invariant 0 <= i <= |sTopic|
      invariant forall k :: 0 <= k < i ==> sPattern[k] == "*" || sPattern[k] == sTopic[k]
    {
      if sPattern[i] != "*" && sPattern[i] != sTopic[i] {
        return false;
      }
      i := i + 1;
    }
    return true;
  }

  /** A pattern with no `*` segment matches exactly the identical subject. */
  lemma LiteralPatternMatchesItself(pattern: string, subject: string)
    requires forall i :: 0 <= i < |Segments(pattern)| ==> Segments(pattern)[i] != "*"
    ensures Matches(pattern, subject) <==> pattern == subject
  {
    if Matches(pattern, subject) {
      assert Segments(pattern) == Segments(subject);
      SplitInjective(pattern, subject, '.');
    }
  }

  /** A single `*` matches any one-segment subject and nothing longer. */
  lemma StarMatchesOneSegment(subject: string)
    ensures Matches("*", subject) <==> '.' !in subject
  {
    SplitNoSep("*", '.');
    if '.' !in subject {
      SplitNoSep(subject, '.');
    } else {
      var i :| 0 <= i < |subject| && subject[i] == '.';
      MoreSegments(subject, i);
    }
  }

  lemma {:induction false} MoreSegments(s: string, i: nat)
    requires i < |s| && s[i] == '.'
    ensures |Segments(s)| > 1
  {
    if i > 0 {
      MoreSegments(s[1..], i - 1);
    }
  }

  /** A pushable channel: the messages pushed so far, and whether it was
   *  closed. */
  class Channel {
    const pattern: string
    var messages: seq<NatsMsg>
    var closed: bool

    constructor (pattern: string)
      ensures this.pattern == pattern && messages == [] && !closed
    {
      this.pattern := pattern;
      messages := [];
      closed := false;
    }
  }

  /** `createLocalMessageBrokerComponent`: the `channels` table. */
  class LocalBroker {
    var channels: map<string, Channel>

    /** Each channel is stored under its own pattern and is still open. */
    ghost predicate Valid()
      reads this, channels.Values
    {
      forall p :: p in channels ==> channels[p].pattern == p && !channels[p].closed
    }

    constructor ()
      ensures Valid() && channels == map[]
    {
      channels := map[];
    }

    /** `subscribe` (message-broker.ts:37-46): a fresh channel replaces any
     *  earlier one for the same pattern. */
    method Subscribe(pattern: string) returns (ch: Channel)
      requires Valid()
      modifies this
      ensures Valid() && fresh(ch)
      ensures channels == old(channels)[pattern := ch]
      ensures ch.pattern == pattern && ch.messages == [] && !ch.closed
    {
      ch := new Channel(pattern);
      channels := channels[pattern := ch];
    }

    /** `unsubscribe` (message-broker.ts:43): closing a channel runs its close
     *  callback once, which deletes the table entry for its pattern, even if
     *  that entry now holds a newer channel. */
    method Unsubscribe(ch: Channel)
      requires Valid()
      modifies this, ch
      ensures Valid() && ch.closed && ch.messages == old(ch.messages)
      ensures channels == if old(ch.closed) then old(channels) else old(channels) - {ch.pattern}
    {
      if !ch.closed {
        ch.closed := true;
        channels := channels - {ch.pattern};
      }
    }

    /** `publish` (message-broker.ts:18-35): every channel whose pattern
     *  matches the topic receives the message once; no other does. */
    method Publish(topic: string, data: Bytes)
      requires Valid()
      modifies channels.Values
      ensures Valid()
      ensures forall p :: p in channels ==>
        channels[p].messages == old(channels[p].messages) + (if Matches(p, topic) then [NatsMsg(topic, data)] else [])
    {
      var todo := channels.Keys;
      ghost var done: set<string> := {};
      while todo != {}
        invariant todo + done == channels.Keys && todo !! done
        invariant Valid()
        invariant forall p :: p in channels ==>
          channels[p].messages == old(channels[p].messages) + (if p in done && Matches(p, topic) then [NatsMsg(topic, data)] else [])
        decreases todo
      {
        var pattern :| pattern in todo;
        var ch := channels[pattern];
        var matched := SegmentsMatch(pattern, topic);
        if matched {
          ch.messages := ch.messages + [NatsMsg(topic, data)];
        }
        todo := todo - {pattern};
        done := done + {pattern};
      }
    }
  }
}
