/** The key space in which the Pebble event log keeps many topics. */
module PebbleKeys {
  import opened Basics
  import opened ByteOrder

  const EVENT_KEY_PREFIX: byte := 0x65   // 'e'
  const OFFSET_KEY_PREFIX: byte := 0x6f  // 'o'

  // uint32(len(topic)) keeps the low 32 bits of the length.
  function TopicPrefix(kind: byte, topic: Text): Bytes {
    Widths();
    [kind] + BigEndian(|topic| % TWO_TO_THE_32, 4) + topic
  }

  function EventTopicPrefix(topic: Text): Bytes {
    TopicPrefix(EVENT_KEY_PREFIX, topic)
  }

  function OffsetKey(topic: Text): Bytes {
    TopicPrefix(OFFSET_KEY_PREFIX, topic)
  }

  function EncodeOffset(offset: nat): (b: Bytes)
    requires offset < TWO_TO_THE_64
    ensures |b| == 8 && FromBigEndian(b) == offset
  {
    Widths();
    DecodeEncode(offset, 8);
    BigEndian(offset, 8)
  }

  function EventKey(topic: Text, offset: nat): Bytes
    requires offset < TWO_TO_THE_64
  {
    EventTopicPrefix(topic) + EncodeOffset(offset)
  }

  function DecodeOffsetTopicKey(key: Bytes): Option<Text> {
    if |key| < 5 || key[0] != OFFSET_KEY_PREFIX then None
    else if |key| != 5 + FromBigEndian(key[1..5]) then None
    else Some(key[5..])
  }

  // ---- prefix scans -------------------------------------------------------

  /** A scan window [lower, upper); no upper bound means it is open-ended. */
  predicate InRange(key: Bytes, lower: Bytes, upper: Option<Bytes>) {
    LexLe(lower, key) && (upper.Some? ==> LexLt(key, upper.value))
  }

  /** The successor of a prefix, read from its first byte on. */
  function PrefixSuccessor(prefix: Bytes): Option<Bytes> {
    if prefix == [] then None
    else match PrefixSuccessor(prefix[1..])
      case Some(u) => Some([prefix[0]] + u)
      case None => if prefix[0] == 0xff then None else Some([prefix[0] + 1])
  }

  lemma {:induction false} SuccessorOfLastBump(a: Bytes, x: byte, ffs: Bytes)
    requires x != 0xff && PrefixSuccessor(ffs) == None
    ensures PrefixSuccessor(a + [x] + ffs) == Some(a + [x + 1])
  {
    var p := a + [x] + ffs;
    if a == [] {
      assert p[1..] == ffs && a + [x + 1] == [x + 1];
    } else {
      assert p[1..] == a[1..] + [x] + ffs;
      SuccessorOfLastBump(a[1..], x, ffs);
      assert a + [x + 1] == [a[0]] + (a[1..] + [x + 1]);
    }
  }

  lemma NoSuccessorOfMax(s: Bytes, rest: Bytes)
    requires s != [] && s[0] == 0xff && s[1..] == rest && PrefixSuccessor(rest) == None
    ensures PrefixSuccessor(s) == None
  {
  }

  lemma SuccessorAt(prefix: Bytes, i: nat)
    requires i < |prefix| && PrefixSuccessor(prefix[i + 1..]) == None
    ensures prefix[i] != 0xff ==> PrefixSuccessor(prefix) == Some(prefix[..i] + [prefix[i] + 1])
    ensures prefix[i] == 0xff ==> PrefixSuccessor(prefix[i..]) == None
  {
    hide PrefixSuccessor;
    if prefix[i] != 0xff {
      assert prefix == prefix[..i] + [prefix[i]] + prefix[i + 1..];
      SuccessorOfLastBump(prefix[..i], prefix[i], prefix[i + 1..]);
    } else {
      assert prefix[i..][1..] == prefix[i + 1..];
      NoSuccessorOfMax(prefix[i..], prefix[i + 1..]);
    }
  }

  lemma NoSuccessorAtEnds(prefix: Bytes)
    ensures PrefixSuccessor(prefix[|prefix|..]) == None && prefix[0..] == prefix
  {
  }

  method PrefixUpperBound(prefix: Bytes) returns (bound: Option<Bytes>)
    ensures bound == PrefixSuccessor(prefix)
  {
    hide PrefixSuccessor;
    var upper := new byte[|prefix|](i requires 0 <= i < |prefix| => prefix[i]);
    NoSuccessorAtEnds(prefix);
    var i := |prefix| - 1;
    while i >= 0
      invariant -1 <= i < |prefix|
      invariant forall k :: 0 <= k < |prefix| ==> upper[k] == prefix[k]
      invariant PrefixSuccessor(prefix[i + 1..]) == None
    {
      SuccessorAt(prefix, i);
      if upper[i] != 0xff {
        upper[i] := upper[i] + 1;
        assert upper[..i + 1] == prefix[..i] + [prefix[i] + 1];
        return Some(upper[..i + 1]);
      }
      i := i - 1;
    }
    return None;
  }

  /** The bound is exact: the window holds the keys with that prefix and no others. */
  lemma {:induction false} PrefixRangeExact(prefix: Bytes, key: Bytes)
    ensures InRange(key, prefix, PrefixSuccessor(prefix)) <==> prefix <= key
  {
    if prefix == [] {
    } else if key == [] {
    } else {
      PrefixRangeExact(prefix[1..], key[1..]);
      var rest := PrefixSuccessor(prefix[1..]);
      var upper := PrefixSuccessor(prefix);
      assert prefix <= key <==> prefix[0] == key[0] && prefix[1..] <= key[1..] by {
        assert prefix == [prefix[0]] + prefix[1..] && key == [key[0]] + key[1..];
      }
      if rest.Some? {
        assert upper.value[1..] == rest.value;
        assert key == [key[0]] + key[1..];
      } else if upper.Some? {
        assert upper.value[1..] == [];
        assert key[0] == prefix[0] ==> LexLe(key, upper.value);
        if LexLe(key, upper.value) && key[0] == upper.value[0] {
          assert LexLe(key[1..], []);
          assert key == [key[0]] + key[1..];
        }
      }
    }
  }

  /** There is no bound exactly when every byte of the prefix is 0xff. */
  lemma {:induction false} UnboundedExactly(prefix: Bytes)
    ensures PrefixSuccessor(prefix).None? <==> forall i :: 0 <= i < |prefix| ==> prefix[i] == 0xff
  {
    if prefix != [] {
      UnboundedExactly(prefix[1..]);
      assert forall i :: 1 <= i < |prefix| ==> prefix[i] == prefix[1..][i - 1];
    }
  }

  // ---- what the keys tell apart -------------------------------------------

  lemma EventKeyInjective(s: Text, i: nat, t: Text, j: nat)
    requires i < TWO_TO_THE_64 && j < TWO_TO_THE_64
    requires EventKey(s, i) == EventKey(t, j)
    ensures s == t && i == j
  {
    var k := EventKey(s, i);
    assert k[5..|k| - 8] == s && k[5..|k| - 8] == t;
    assert k[|k| - 8..] == EncodeOffset(i) && k[|k| - 8..] == EncodeOffset(j);
  }

  /** Inside a topic, byte order is offset order, over all of uint64. */
  lemma EventKeyOrder(topic: Text, i: nat, j: nat)
    requires i < TWO_TO_THE_64 && j < TWO_TO_THE_64
    ensures LexLe(EventKey(topic, i), EventKey(topic, j)) <==> i <= j
  {
    Widths();
    LexCommonPrefix(EventTopicPrefix(topic), EncodeOffset(i), EncodeOffset(j));
    BigEndianMonotone(i, j, 8);
  }

  lemma OffsetKeyInjective(s: Text, t: Text)
    requires OffsetKey(s) == OffsetKey(t)
    ensures s == t
  {
    assert OffsetKey(s)[5..] == s && OffsetKey(t)[5..] == t;
  }

  lemma EventAndOffsetKeysDisjoint(s: Text, i: nat, t: Text)
    requires i < TWO_TO_THE_64
    ensures EventKey(s, i) != OffsetKey(t)
  {
    assert EventKey(s, i)[0] == EVENT_KEY_PREFIX && OffsetKey(t)[0] == OFFSET_KEY_PREFIX;
  }

  /** Which topics' event keys a topic's scan window holds. The second case needs
      two names whose lengths differ by a multiple of 2^32. */
  lemma TopicWindowExact(topic: Text, other: Text, offset: nat)
    requires offset < TWO_TO_THE_64
    ensures InRange(EventKey(other, offset), EventTopicPrefix(topic), PrefixSuccessor(EventTopicPrefix(topic)))
      <==> topic == other || (topic <= other && |topic| % TWO_TO_THE_32 == |other| % TWO_TO_THE_32)
  {
    Widths();
    var p, k := EventTopicPrefix(topic), EventKey(other, offset);
    PrefixRangeExact(p, k);
    var m, n := |topic| % TWO_TO_THE_32, |other| % TWO_TO_THE_32;
    DecodeEncode(m, 4);
    DecodeEncode(n, 4);
    assert p[1..5] == BigEndian(m, 4) && k[1..5] == BigEndian(n, 4);
    assert p[5..] == topic;
    if p <= k {
      assert p[1..5] == k[1..5];
      assert m == n;
      assert |topic| <= |other| + 8;
      assert |topic| <= |other|;
      assert k[5..5 + |topic|] == topic;
      assert k[5..5 + |topic|] == other[..|topic|];
    }
    if m == n && topic <= other {
      assert other == topic + other[|topic|..];
      assert k == p + (other[|topic|..] + EncodeOffset(offset));
    }
  }

  /** So a scan is confined to its topic among names shorter than 2^32 bytes,
      even when one name is a prefix of another. */
  lemma TopicWindowIsolated(topic: Text, other: Text, offset: nat)
    requires offset < TWO_TO_THE_64 && |topic| < TWO_TO_THE_32 && |other| < TWO_TO_THE_32
    ensures InRange(EventKey(other, offset), EventTopicPrefix(topic), PrefixSuccessor(EventTopicPrefix(topic)))
      <==> topic == other
  {
    TopicWindowExact(topic, other, offset);
    assert topic <= other && |topic| == |other| ==> topic == other;
  }

  /** Decoding accepts exactly the keys that encoding makes, and inverts it. */
  lemma OffsetKeyDecodes(key: Bytes, topic: Text)
    ensures DecodeOffsetTopicKey(key) == Some(topic) <==> key == OffsetKey(topic) && |topic| < TWO_TO_THE_32
  {
    Widths();
    if key == OffsetKey(topic) {
      DecodeEncode(|topic| % TWO_TO_THE_32, 4);
      assert key[1..5] == BigEndian(|topic| % TWO_TO_THE_32, 4) && key[5..] == topic;
    }
    if DecodeOffsetTopicKey(key) == Some(topic) {
      EncodeDecode(key[1..5]);
      assert key == [key[0]] + key[1..5] + key[5..];
    }
  }

  /** The statistics window ['o', 'p') holds the counter keys and no event key. */
  lemma OffsetWindowExact(key: Bytes)
    ensures InRange(key, [OFFSET_KEY_PREFIX], Some([OFFSET_KEY_PREFIX + 1])) <==>
      key != [] && key[0] == OFFSET_KEY_PREFIX
  {
    PrefixRangeExact([OFFSET_KEY_PREFIX], key);
    assert PrefixSuccessor([OFFSET_KEY_PREFIX]) == Some([OFFSET_KEY_PREFIX + 1]);
  }
}
