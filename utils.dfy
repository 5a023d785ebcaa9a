/** Topic, partition and member-key strings shared by every component. */
module Utils {
  import opened Js
  import opened Text

  /** The partition that matches every partition. */
  const AllPartitions: string := ".*"

  /** The two-character literal separator `\(` that `getTopic` and `getPartition` split on. */
  const TopicSeparator: string := ['\\', '(']

  /** The event name a listener is bound to: `topic(partition)`. */
  function TopicString(topic: string, partition: string): (s: string)
    ensures |s| == |topic| + |partition| + 2
    ensures s[..|topic|] == topic && s[|topic|] == '(' && s[|s| - 1] == ')'
    ensures s[|topic| + 1..|s| - 1] == partition
  {
    topic + "(" + partition + ")"
  }

  /** The event name used for notifications: topic and partition run together. */
  function NotifyTopicString(topic: string, partition: string): (s: string)
    ensures |s| == |topic| + |partition|
    ensures s[..|topic|] == topic && s[|topic|..] == partition
  {
    topic + partition
  }

  /**
   * The topic part of a topic string: the text before the first `\(`
   * when the string contains a `(`, and the whole string otherwise.
   */
  function GetTopic(s: string): (t: string)
    ensures t <= s
    ensures '(' !in s ==> t == s
  {
    if '(' in s then SplitHead(s, TopicSeparator); Split(s, TopicSeparator)[0] else s
  }

  /**
   * The partition part of a topic string: the piece after the first `\(`
   * when the string contains a `(` and a `\(`, and the all-partitions
   * pattern otherwise.
   */
  function GetPartition(s: string): (p: string)
    ensures '(' !in s ==> p == AllPartitions
  {
    if '(' in s && |Split(s, TopicSeparator)| > 1 then Split(s, TopicSeparator)[1] else AllPartitions
  }

  /** Splitting on the literal `\(` finds a piece boundary exactly where `\(` is written. */
  lemma GetTopicLiteral(t: string, p: string)
    requires Free(t, '\\')
    ensures GetTopic(t + TopicSeparator + p) == t
    ensures Free(p, '\\') ==> GetPartition(t + TopicSeparator + p) == p
  {
    SplitCons(t, TopicSeparator, p);
    assert (t + TopicSeparator + p)[|t| + 1] == '(';
    if Free(p, '\\') {
      SplitNone(p, TopicSeparator);
    }
  }

  /**
   * `getTopic` and `getPartition` do not undo `getTopicString`: a topic string
   * built from backslash-free parts has no `\(`, so the whole string is
   * taken as the topic and the partition falls back to all partitions.
   */
  lemma TopicStringNotInverted(t: string, p: string)
    requires Free(t, '\\') && Free(p, '\\')
    ensures GetTopic(TopicString(t, p)) == TopicString(t, p)
    ensures GetPartition(TopicString(t, p)) == AllPartitions
  {
    var s := TopicString(t, p);
    assert s[|t|] == '(';
    assert Free(s, '\\');
    SplitNone(s, TopicSeparator);
  }

  /** The key that identifies a member: `ip:gossipPort:dataPort`. */
  function Key(ip: string, gossipPort: string, dataPort: string): (k: string)
    ensures |k| == |ip| + |gossipPort| + |dataPort| + 2
  {
    ip + ":" + gossipPort + ":" + dataPort
  }

  /** A key's three parts come back out of it when none of them holds a colon. */
  lemma KeyParts(ip: string, gossipPort: string, dataPort: string)
    requires Free(ip, ':') && Free(gossipPort, ':') && Free(dataPort, ':')
    ensures Split(Key(ip, gossipPort, dataPort), ":") == [ip, gossipPort, dataPort]
  {
    SplitThree(ip, gossipPort, dataPort, ':');
  }

  /** Keys built from colon-free parts are equal exactly when the parts are. */
  lemma KeyInjective(a: (string, string, string), b: (string, string, string))
    requires Free(a.0, ':') && Free(a.1, ':') && Free(a.2, ':')
    requires Free(b.0, ':') && Free(b.1, ':') && Free(b.2, ':')
    ensures Key(a.0, a.1, a.2) == Key(b.0, b.1, b.2) <==> a == b
  {
    KeyParts(a.0, a.1, a.2);
    KeyParts(b.0, b.1, b.2);
  }

  /** The two shapes of argument `getKey` accepts. */
  datatype KeyArgs =
    | ForMember(ip: Value, gossipPort: Value, dataPort: Value)
    | ForAddress(ip: Value, gossipPort: Value, dataPort: Value)

  /**
   * `getKey`: the key of `args.member` when one is given; otherwise the key
   * of the address when ip and both ports are truthy, and "" when not.
   */
  function GetKey(args: KeyArgs): (k: string)
    ensures k == "" <==> args.ForAddress? && !(Truthy(args.ip) && Truthy(args.gossipPort) && Truthy(args.dataPort))
    ensures k != "" ==> k == Key(Show(args.ip), Show(args.gossipPort), Show(args.dataPort))
  {
    if args.ForMember? || (Truthy(args.ip) && Truthy(args.gossipPort) && Truthy(args.dataPort)) then
      Key(Show(args.ip), Show(args.gossipPort), Show(args.dataPort))
    else ""
  }
}
