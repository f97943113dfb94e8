/**
 * Topic handling shared by the ingestion scripts: the substring test behind
 * Python's `in`, `str.split('/')`, `str.rfind('/')`, and the two fixed
 * name lists (row-creation denylist, legacy attribute names).
 */
module Topics {
  import opened Wrappers

  // ---- substring test (`needle in hay`) ----

  /** Python's `needle in hay` on strings. */
  predicate Contains(hay: string, needle: string)
    decreases |hay|
  {
    needle <= hay || (hay != [] && Contains(hay[1..], needle))
  }

  /** `needle` occurs in `hay` starting at index `i`. */
  predicate OccursAt(hay: string, needle: string, i: int) {
    0 <= i && i + |needle| <= |hay| && hay[i..i + |needle|] == needle
  }

  /** `Contains` means the needle occurs at some position. */
  lemma {:induction false} ContainsAt(hay: string, needle: string)
    ensures Contains(hay, needle) <==> exists i :: OccursAt(hay, needle, i)
    decreases |hay|
  {
    if needle <= hay {
      assert OccursAt(hay, needle, 0);
    } else if hay != [] {
      ContainsAt(hay[1..], needle);
      if Contains(hay[1..], needle) {
        var i :| OccursAt(hay[1..], needle, i);
        assert hay[i + 1..i + 1 + |needle|] == hay[1..][i..i + |needle|];
        assert OccursAt(hay, needle, i + 1);
      }
      if exists i :: OccursAt(hay, needle, i) {
        var i :| OccursAt(hay, needle, i);
        if i > 0 {
          assert hay[1..][i - 1..i - 1 + |needle|] == hay[i..i + |needle|];
          assert OccursAt(hay[1..], needle, i - 1);
        }
      }
    }
  }

  /** Containment is transitive: a string holding "connection" holds "connect". */
  lemma ContainsTransitive(a: string, b: string, c: string)
    requires Contains(a, b) && Contains(b, c)
    ensures Contains(a, c)
  {
    ContainsAt(a, b);
    ContainsAt(b, c);
    var i :| OccursAt(a, b, i);
    var j :| OccursAt(b, c, j);
    forall k | 0 <= k < |c|
      ensures a[i + j + k] == c[k]
    {
      assert a[i..i + |b|][j + k] == b[j + k];
      assert b[j..j + |c|][k] == c[k];
    }
    assert a[i + j..i + j + |c|] == c;
    assert OccursAt(a, c, i + j);
    ContainsAt(a, c);
  }

  /** `any(s in topic for s in names)`. */
  predicate ContainsAny(topic: string, names: seq<string>) {
    exists k :: 0 <= k < |names| && Contains(topic, names[k])
  }

  /** Attributes for which no device row is ever created. */
  const DenyList: seq<string> := ["connect", "connection", "disconnect", "location", "mqttstats"]

  /** Attribute names that mark a legacy device in the substring classification. */
  const LegacyNames: seq<string> := ["swc", "swd", "mqtt_"]

  predicate Denylisted(attribute: string) {
    ContainsAny(attribute, DenyList)
  }

  predicate LegacyNamed(attribute: string) {
    ContainsAny(attribute, LegacyNames)
  }

  /**
   * "connection" and "disconnect" add nothing to the denylist: every name
   * holding one of them holds "connect".
   */
  lemma DenylistedReduces(attribute: string)
    ensures Denylisted(attribute) <==>
            Contains(attribute, "connect") || Contains(attribute, "location") || Contains(attribute, "mqttstats")
  {
    assert DenyList[0] == "connect" && DenyList[3] == "location" && DenyList[4] == "mqttstats";
    if Contains(attribute, "connection") {
      assert Contains("connection", "connect");
      ContainsTransitive(attribute, "connection", "connect");
    }
    if Contains(attribute, "disconnect") {
      assert Contains("disconnect"[3..], "connect");
      ContainsTransitive(attribute, "disconnect", "connect");
    }
  }

  // ---- searching for '/' ----

  /** `str.find(c)`: the first index holding `c`, or -1. */
  function Find(s: string, c: char): (r: int)
    ensures -1 <= r < |s|
    ensures r >= 0 ==> s[r] == c && c !in s[..r]
    ensures r == -1 <==> c !in s
  {
    if s == [] then -1
    else if s[0] == c then 0
    else
      var k := Find(s[1..], c);
      assert s == [s[0]] + s[1..];
      if k == -1 then -1
      else
        assert s[..k + 1] == [s[0]] + s[1..][..k];
        k + 1
  }

  /** `str.rfind(c)`: the last index holding `c`, or -1. */
  function RFind(s: string, c: char): (r: int)
    ensures -1 <= r < |s|
    ensures r >= 0 ==> s[r] == c && c !in s[r + 1..]
    ensures r == -1 <==> c !in s
  {
    if s == [] then -1
    else if s[|s| - 1] == c then |s| - 1
    else
      var k := RFind(s[..|s| - 1], c);
      assert s == s[..|s| - 1] + [s[|s| - 1]];
      if k >= 0 then
        assert s[k + 1..] == s[..|s| - 1][k + 1..] + [s[|s| - 1]];
        k
      else k
  }

  // ---- `topic.split('/')` ----

  /** `str.split('/')`: the pieces between separators, in order. */
  function Split(s: string): (r: seq<string>)
    ensures |r| >= 1
    decreases |s|
  {
    var i := Find(s, '/');
    if i == -1 then [s] else [s[..i]] + Split(s[i + 1..])
  }

  function Join(parts: seq<string>): string
    requires |parts| >= 1
  {
    if |parts| == 1 then parts[0] else parts[0] + "/" + Join(parts[1..])
  }

  /** Splitting loses nothing, and no piece holds a separator. */
  lemma {:induction false} SplitJoin(s: string)
    ensures Join(Split(s)) == s
    ensures forall k :: 0 <= k < |Split(s)| ==> '/' !in Split(s)[k]
    decreases |s|
  {
    var i := Find(s, '/');
    if i != -1 {
      SplitJoin(s[i + 1..]);
      assert s == s[..i] + "/" + s[i + 1..];
      assert Split(s)[1..] == Split(s[i + 1..]);
    }
  }

  /** Splitting text with no separator in front of one gives that text first. */
  lemma SplitFront(p: string, rest: string)
    requires '/' !in p
    ensures Split(p + "/" + rest) == [p] + Split(rest)
  {
    var s := p + "/" + rest;
    assert s[|p|] == '/';
    assert s[..|p|] == p;
    var i := Find(s, '/');
    assert i == |p|;
    assert s[i + 1..] == rest;
  }

  // ---- the two views of a topic ----

  /**
   * `topic.split("/")[1]`: the device identifier, or `None` where Python
   * raises IndexError because the topic has no separator.
   */
  function DeviceId(topic: string): Option<string> {
    var parts := Split(topic);
    if |parts| > 1 then Some(parts[1]) else None
  }

  lemma DeviceIdDefined(topic: string)
    ensures DeviceId(topic).Some? <==> '/' in topic
  {
  }

  /** After a separator-free prefix and a `/`, the identifier is the first piece of the rest. */
  lemma DeviceIdAfter(prefix: string, tail: string)
    requires '/' !in prefix
    ensures DeviceId(prefix + "/" + tail) == Some(Split(tail)[0])
  {
    SplitFront(prefix, tail);
  }

  /** For `prefix/id` the identifier is the last segment. */
  lemma DeviceIdOfPair(prefix: string, id: string)
    requires '/' !in prefix && '/' !in id
    ensures DeviceId(prefix + "/" + id) == Some(id)
  {
    DeviceIdAfter(prefix, id);
    assert Find(id, '/') == -1;
  }

  /** For `prefix/id/rest` the identifier is the second segment, whatever follows. */
  lemma DeviceIdOf(prefix: string, id: string, rest: string)
    requires '/' !in prefix && '/' !in id
    ensures DeviceId(prefix + "/" + id + "/" + rest) == Some(id)
  {
    var tail := id + "/" + rest;
    assert prefix + "/" + id + "/" + rest == prefix + "/" + tail;
    DeviceIdAfter(prefix, tail);
    SplitFront(id, rest);
  }

  /** `topic[topic.rfind('/') + 1:]`: the attribute name. */
  function Attribute(topic: string): string {
    topic[RFind(topic, '/') + 1..]
  }

  /**
   * The attribute is a separator-free suffix: the whole topic when it has no
   * separator, otherwise everything after the last one.
   */
  lemma AttributeShape(topic: string)
    ensures '/' !in Attribute(topic)
    ensures Attribute(topic) == topic[|topic| - |Attribute(topic)|..]
    ensures '/' !in topic ==> Attribute(topic) == topic
    ensures '/' in topic ==>
              |Attribute(topic)| < |topic| && topic[|topic| - |Attribute(topic)| - 1] == '/'
  {
  }

  /** The suffix after a final separator is the attribute, whatever precedes it. */
  lemma AttributeOf(prefix: string, attribute: string)
    requires '/' !in attribute
    ensures Attribute(prefix + "/" + attribute) == attribute
  {
    var t := prefix + "/" + attribute;
    assert t[|prefix|] == '/';
    assert t[|prefix| + 1..] == attribute;
    assert RFind(t, '/') == |prefix|;
  }
}
