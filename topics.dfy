/** Topic names and the broker's topic table as the handlers see them.
    The table itself (a trie in the broker) is a map from normalised topic
    name to the topic record; a topic's subscribers (a hash table keyed by
    client identifier in the broker) are a sequence holding each client at
    most once. The type of a client is a parameter `C`. */
module Topics {
  import opened Mqtt

  type TopicName = seq<char>

  datatype Subscriber<C> = Subscriber(client: C, qos: byte)

  /** A topic: its subscribers and the packed retained message, if any. */
  datatype Topic<C> = Topic(subscribers: seq<Subscriber<C>>, retained: Option<seq<byte>>)

  predicate EndsWithSlash(t: seq<char>)
  {
    |t| > 0 && t[|t| - 1] == '/'
  }

  /** A filter ending in "/#" asks for every topic below its prefix. */
  predicate IsWildcard(t: seq<char>)
  {
    |t| >= 2 && t[|t| - 2] == '/' && t[|t| - 1] == '#'
  }

  /** The name under which SUBSCRIBE stores a filter: "/#" loses its '#',
      any other filter gains a trailing '/' unless it has one. */
  function SubscribeName(t: seq<char>): (r: TopicName)
    requires |t| > 0
    ensures EndsWithSlash(r)
    ensures r == t || r == t + ['/'] || r + ['#'] == t
    ensures IsWildcard(t) <==> r + ['#'] == t
  {
    if IsWildcard(t) then t[..|t| - 1]
    else if t[|t| - 1] != '/' then t + ['/']
    else t
  }

  /** The name under which PUBLISH looks a topic up, as the normalisation
      is evidently meant to work: a trailing '/' is added when missing. */
  function PublishName(t: seq<char>): (r: TopicName)
    ensures EndsWithSlash(r)
    ensures r == t || r == t + ['/']
    ensures EndsWithSlash(t) <==> r == t
  {
    if EndsWithSlash(t) then t else t + ['/']
  }

  /** The publish-side normalisation as written: it tests the byte just past
      the copied topic, `next`, which the source never initialises. When
      that byte happens to be '/' the name is left without its terminator
      and what follows is undefined (None). */
  function PublishNameAsWritten(t: seq<char>, next: char): (r: Option<TopicName>)
    ensures r.Some? <==> next != '/'
    ensures r.Some? ==> r.value == t + ['/']
  {
    if next != '/' then Some(t + ['/']) else None
  }

  lemma SubscribeNameIdempotent(t: seq<char>)
    requires |t| > 0
    ensures SubscribeName(SubscribeName(t)) == SubscribeName(t)
  {
  }

  lemma PublishNameIdempotent(t: seq<char>)
    ensures PublishName(PublishName(t)) == PublishName(t)
  {
  }

  /** For every filter that is not a "/#" wildcard, subscribing and
      publishing normalise the same string to the same name. */
  lemma NamesAgree(t: seq<char>)
    requires |t| > 0 && !IsWildcard(t)
    ensures SubscribeName(t) == PublishName(t)
  {
  }

  /** The as-written publish normalisation disagrees with the subscribe
      side on every topic that already ends in '/': a client subscribed to
      "a/" is stored under "a/", a PUBLISH to "a/" goes to "a//". */
  lemma PublishNameAsWrittenDoublesSlash(t: seq<char>, next: char)
    requires EndsWithSlash(t) && next != '/'
    ensures PublishNameAsWritten(t, next) == Some(t + ['/'])
    ensures SubscribeName(t) == t && PublishName(t) == t
    ensures PublishNameAsWritten(t, next).value != SubscribeName(t)
  {
    assert |t + ['/']| != |t|;
  }

  lemma PublishNameAsWrittenExample()
    ensures PublishNameAsWritten("a/", 'x') == Some("a//")
    ensures SubscribeName("a/") == "a/" == PublishName("a/")
  {
    assert "a/" + ['/'] == "a//";
  }

  predicate Subscribes<C(==)>(subs: seq<Subscriber<C>>, c: C)
  {
    exists i :: 0 <= i < |subs| && subs[i].client == c
  }

  /** `c` is among `subs`, and every entry of `c` carries `qos`. */
  predicate SubscribedWith<C(==)>(subs: seq<Subscriber<C>>, c: C, qos: byte)
  {
    Subscribes(subs, c) && forall i :: 0 <= i < |subs| && subs[i].client == c ==> subs[i].qos == qos
  }

  /** Where `c` sits in `subs`, if anywhere. */
  function Position<C(==)>(subs: seq<Subscriber<C>>, c: C): (r: Option<nat>)
    ensures r.Some? ==> r.value < |subs| && subs[r.value].client == c
    ensures r.None? <==> !Subscribes(subs, c)
  {
    if subs == [] then None
    else if subs[|subs| - 1].client == c then Some(|subs| - 1)
    else
      var init := subs[..|subs| - 1];
      assert forall i :: 0 <= i < |init| ==> init[i] == subs[i];
      Position(init, c)
  }

  /** `subs` with every entry of client `c` removed, others kept in order. */
  function WithoutClient<C(==)>(subs: seq<Subscriber<C>>, c: C): seq<Subscriber<C>>
  {
    if subs == [] then []
    else
      var rest := WithoutClient(subs[..|subs| - 1], c);
      if subs[|subs| - 1].client == c then rest else rest + [subs[|subs| - 1]]
  }

  /** Removal leaves no entry of `c`, keeps every other entry, adds
      nothing, and changes nothing when `c` was absent. */
  lemma {:induction false} WithoutClientSpec<C>(subs: seq<Subscriber<C>>, c: C)
    ensures var r := WithoutClient(subs, c);
      && !Subscribes(r, c)
      && (forall i :: 0 <= i < |r| ==> r[i] in subs && r[i].client != c)
      && (forall i :: 0 <= i < |subs| && subs[i].client != c ==> subs[i] in r)
      && |r| <= |subs|
      && (!Subscribes(subs, c) ==> r == subs)
  {
    if subs != [] {
      var init := subs[..|subs| - 1];
      var last := subs[|subs| - 1];
      WithoutClientSpec(init, c);
      assert subs == init + [last];
      if !Subscribes(subs, c) {
        assert !Subscribes(init, c) by {
          forall i | 0 <= i < |init| ensures init[i].client != c { assert init[i] == subs[i]; }
        }
        assert last.client != c;
      }
    }
  }

  /** Subscribing `c` (a hash-table put, keyed here by the client itself
      where the broker keys by its identifier): any older entry of `c` is
      replaced, the other subscribers stay. */
  function AddSubscriber<C(==)>(subs: seq<Subscriber<C>>, c: C, qos: byte): seq<Subscriber<C>>
  {
    WithoutClient(subs, c) + [Subscriber(c, qos)]
  }

  /** After the put, `c` is present exactly once, with the new QoS, and
      the other subscribers are the ones before. */
  lemma AddSubscriberSpec<C>(subs: seq<Subscriber<C>>, c: C, qos: byte)
    ensures var r := AddSubscriber(subs, c, qos);
      && Subscribes(r, c)
      && (forall i :: 0 <= i < |r| && r[i].client == c ==> r[i].qos == qos && i == |r| - 1)
      && (forall i :: 0 <= i < |subs| && subs[i].client != c ==> subs[i] in r)
      && (forall i :: 0 <= i < |r| && r[i].client != c ==> r[i] in subs)
  {
    WithoutClientSpec(subs, c);
    var r := AddSubscriber(subs, c, qos);
    assert r[|r| - 1].client == c;
  }

  function SubscribersOf<C>(topics: map<TopicName, Topic<C>>, name: TopicName): seq<Subscriber<C>>
  {
    if name in topics then topics[name].subscribers else []
  }

  /** Look a topic up, creating it without subscribers or retained
      message when absent. */
  function GetOrCreate<C>(topics: map<TopicName, Topic<C>>, name: TopicName): map<TopicName, Topic<C>>
  {
    if name in topics then topics else topics[name := Topic([], None)]
  }

  /** Subscribe `c` to every topic whose name starts with `prefix` (the
      prefix walk of a wildcard subscription). */
  function FanOut<C(==)>(topics: map<TopicName, Topic<C>>, prefix: TopicName, c: C, qos: byte): map<TopicName, Topic<C>>
  {
    map k | k in topics ::
      if prefix <= k then topics[k].(subscribers := AddSubscriber(topics[k].subscribers, c, qos))
      else topics[k]
  }

  /** The walk reaches every topic under `prefix` and no other, and
      leaves retained messages alone. */
  lemma FanOutSpec<C>(topics: map<TopicName, Topic<C>>, prefix: TopicName, c: C, qos: byte)
    ensures var r := FanOut(topics, prefix, c, qos);
      && r.Keys == topics.Keys
      && (forall k :: k in r && prefix <= k ==> Subscribes(r[k].subscribers, c))
      && (forall k :: k in r && !(prefix <= k) ==> r[k] == topics[k])
      && (forall k :: k in r ==> r[k].retained == topics[k].retained)
  {
    var r := FanOut(topics, prefix, c, qos);
    forall k | k in r && prefix <= k ensures Subscribes(r[k].subscribers, c) {
      AddSubscriberSpec(topics[k].subscribers, c, qos);
    }
  }

  /** Remove `c` from each named topic that exists, in order. */
  function Unsubscribe<C(==)>(topics: map<TopicName, Topic<C>>, c: C, names: seq<TopicName>): map<TopicName, Topic<C>>
  {
    if names == [] then topics
    else
      var prev := Unsubscribe(topics, c, names[..|names| - 1]);
      var n := names[|names| - 1];
      if n in prev then prev[n := prev[n].(subscribers := WithoutClient(prev[n].subscribers, c))]
      else prev
  }

  /** No topic is created or dropped; `c` has left every named topic;
      topics not named and all retained messages are untouched. */
  lemma {:induction false} UnsubscribeSpec<C>(topics: map<TopicName, Topic<C>>, c: C, names: seq<TopicName>)
    ensures var r := Unsubscribe(topics, c, names);
      && r.Keys == topics.Keys
      && (forall k :: k in r && k in names ==> !Subscribes(r[k].subscribers, c))
      && (forall k :: k in r && k !in names ==> r[k] == topics[k])
      && (forall k :: k in r ==> r[k].retained == topics[k].retained)
  {
    if names != [] {
      var init := names[..|names| - 1];
      var n := names[|names| - 1];
      UnsubscribeSpec(topics, c, init);
      assert names == init + [n];
      var prev := Unsubscribe(topics, c, init);
      if n in prev {
        WithoutClientSpec(prev[n].subscribers, c);
      }
    }
  }
}
