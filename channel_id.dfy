/**
 * Names of message channels (`ChannelID`): a channel is identified by a name built
 * deterministically from the environment, the replica, the application prefix and,
 * optionally, the local node's IP address and the application instance id, together with
 * one bit saying whether it is a topic (every listener receives each message) or a queue
 * (one listener receives each message).
 */
module ChannelNaming {
  import opened Basics
  import opened Strings

  /**
   * What the name construction reads from its surroundings: the environment name and the
   * application instance id from the settings, and the local IP address.
   */
  datatype Environment = Environment(environmentName: string, applicationInstanceId: string, localIp: string)

  /** A channel: its name and whether it is a topic (otherwise a queue). */
  datatype ChannelID = ChannelID(name: string, isTopic: bool)

  /**
   * The node part of a name: the IP address with `.` replaced by `_`, followed by `_` and the
   * application instance id when that is asked for and not empty; empty without a node id.
   */
  function NodeQualifier(env: Environment, useNodeId: bool, useAppInstId: bool): string {
    if !useNodeId then ""
    else if useAppInstId && env.applicationInstanceId != "" then
      ReplaceChar(env.localIp, '.', '_') + "_" + env.applicationInstanceId
    else
      ReplaceChar(env.localIp, '.', '_')
  }

  /**
   * `constructName`: environment, replica and prefix joined by `_`, then the node part if any.
   * The name always starts with `env_replica_prefix`; it is longer exactly when a node id is asked
   * for and there is something to put in it, and then the extra part starts with `_`.
   */
  function ConstructName(env: Environment, appPref: string, replicaId: string, useNodeId: bool, useAppInstId: bool)
    : (name: string)
    ensures var base := env.environmentName + "_" + replicaId + "_" + appPref;
      && base <= name
      && (|name| > |base| <==> useNodeId && (env.localIp != "" || (useAppInstId && env.applicationInstanceId != "")))
      && (|name| > |base| ==> name[|base|] == '_')
  {
    var id := NodeQualifier(env, useNodeId, useAppInstId);
    env.environmentName + "_" + replicaId + "_" + appPref + (if id == "" then "" else "_" + id)
  }

  /** The constructor `ChannelID(appPref, replicaId, useNodeId, useAppInstId, isTopic)`. */
  function NewChannelID(env: Environment, appPref: string, replicaId: string, useNodeId: bool, useAppInstId: bool,
                        isTopic: bool): (c: ChannelID)
    ensures c.isTopic == isTopic
    ensures !useNodeId ==> c.name == env.environmentName + "_" + replicaId + "_" + appPref
  {
    ChannelID(ConstructName(env, appPref, replicaId, useNodeId, useAppInstId), isTopic)
  }

  /** Without a node id the name is `env_replica_prefix`, whatever the instance-id flag says. */
  lemma NameWithoutNodeId(env: Environment, appPref: string, replicaId: string, useAppInstId: bool)
    ensures ConstructName(env, appPref, replicaId, false, useAppInstId)
         == env.environmentName + "_" + replicaId + "_" + appPref
  {
  }

  /**
   * With a node id (and a non-empty IP address) the name is `env_replica_prefix_ip'`, where `ip'`
   * holds no `.` and has the IP's length, followed by `_id` exactly when the instance id is asked
   * for and not empty.
   */
  lemma NameWithNodeId(env: Environment, appPref: string, replicaId: string, useAppInstId: bool)
    requires env.localIp != ""
    ensures var ip' := ReplaceChar(env.localIp, '.', '_');
      && '.' !in ip' && |ip'| == |env.localIp|
      && ConstructName(env, appPref, replicaId, true, useAppInstId)
         == env.environmentName + "_" + replicaId + "_" + appPref + "_" + ip'
            + (if useAppInstId && env.applicationInstanceId != "" then "_" + env.applicationInstanceId else "")
  {
    var ip' := ReplaceChar(env.localIp, '.', '_');
    assert ip'[0] == (if env.localIp[0] == '.' then '_' else env.localIp[0]);
    assert ip' != "";
    assert forall i :: 0 <= i < |ip'| ==> ip'[i] != '.';
  }

  /**
   * `equals`: the other object is a ChannelID (`None` stands for null or another class) with the
   * same kind and name, that is, exactly the same channel value.
   */
  function Equals(c: ChannelID, o: Option<ChannelID>): (equal: bool)
    ensures equal <==> o == Some(c)
  {
    o.Some? && c.isTopic == o.value.isTopic && c.name == o.value.name
  }

  /** `equals` is reflexive, symmetric and transitive. */
  lemma EqualsIsEquivalence(a: ChannelID, b: ChannelID, c: ChannelID)
    ensures Equals(a, Some(a))
    ensures Equals(a, Some(b)) ==> Equals(b, Some(a))
    ensures Equals(a, Some(b)) && Equals(b, Some(c)) ==> Equals(a, Some(c))
  {
  }

  /** The exact polynomial `s[0]*31^(n-1) + ... + s[n-1]` over unbounded integers. */
  function PolynomialHash(s: string): int {
    if s == [] then 0 else 31 * PolynomialHash(s[..|s| - 1]) + s[|s| - 1] as int
  }

  /** If `a` and `b` agree modulo 2^32, so do `m * a + c` and any 32-bit truncation `r` of it and `m * b + c`. */
  lemma CongruentAfterStep(a: int, b: int, m: int, c: int, r: int)
    requires (a - b) % TwoTo32 == 0
    requires (m * a + c - r) % TwoTo32 == 0
    ensures (r - (m * b + c)) % TwoTo32 == 0
  {
    var k, j := (a - b) / TwoTo32, (m * a + c - r) / TwoTo32;
    assert a - b == k * TwoTo32;
    assert m * a + c - r == j * TwoTo32;
    assert m * (a - b) == (m * k) * TwoTo32;
    assert r - (m * b + c) == (m * k - j) * TwoTo32;
  }

  /**
   * Java's `String.hashCode` in 32-bit arithmetic: it agrees with the exact polynomial
   * modulo 2^32.
   */
  function StringHash(s: string): (r: int32)
    ensures (r - PolynomialHash(s)) % TwoTo32 == 0
  {
    if s == [] then 0
    else
      var init, last := s[..|s| - 1], s[|s| - 1] as int;
      var r := Wrap32(31 * StringHash(init) + last);
      CongruentAfterStep(StringHash(init), PolynomialHash(init), 31, last, r);
      r
  }

  /**
   * `hashCode`: `29 * name.hashCode() + (isTopic ? 1 : 0)` in 32-bit arithmetic, that is,
   * `29 * PolynomialHash(name) + bit` modulo 2^32.
   */
  function HashCode(c: ChannelID): (r: int32)
    ensures (r - (29 * PolynomialHash(c.name) + if c.isTopic then 1 else 0)) % TwoTo32 == 0
  {
    var bit := if c.isTopic then 1 else 0;
    var r := Wrap32(29 * StringHash(c.name) + bit);
    CongruentAfterStep(StringHash(c.name), PolynomialHash(c.name), 29, bit, r);
    r
  }

  /** Equal channels have equal hash codes. */
  lemma HashCodeAgreesWithEquals(a: ChannelID, b: ChannelID)
    requires Equals(a, Some(b))
    ensures HashCode(a) == HashCode(b)
  {
  }

  /** A topic and a queue with the same name never share a hash code. */
  lemma HashCodeSeparatesKinds(name: string)
    ensures HashCode(ChannelID(name, true)) != HashCode(ChannelID(name, false))
  {
    var x := 29 * StringHash(name);
    var t, q := Wrap32(x + 1), Wrap32(x);
    assert (x + 1 - t) % TwoTo32 == 0 && (x - q) % TwoTo32 == 0;
  }

  const TopicOpening := "[Topic '"
  const QueueOpening := "[Queue '"
  const Closing := "']"

  /**
   * `toString`: `[Topic 'name']` for a topic, `[Queue 'name']` for a queue. The printed form
   * shows the kind in its opening and the whole name between the quotes.
   */
  function ToString(c: ChannelID): (s: string)
    ensures |s| == |c.name| + 10
    ensures s[..8] == TopicOpening <==> c.isTopic
    ensures s[..8] == QueueOpening <==> !c.isTopic
    ensures s[8..|s| - 2] == c.name && s[|s| - 2..] == Closing
  {
    var opening := if c.isTopic then TopicOpening else QueueOpening;
    var s := opening + c.name + Closing;
    assert s[..8] == opening;
    assert TopicOpening != QueueOpening by { assert TopicOpening[1] != QueueOpening[1]; }
    assert s[8..|s| - 2] == c.name;
    assert s[|s| - 2..] == Closing;
    s
  }

  /** Different channels print differently. */
  lemma ToStringInjective(a: ChannelID, b: ChannelID)
    requires ToString(a) == ToString(b)
    ensures a == b
  {
  }
}
