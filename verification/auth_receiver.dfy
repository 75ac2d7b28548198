/** The URL-argument parser of app/scripts/comp/auth-receiver.js
    (`urlArgsToMessage`) and the test `receive` applies to its result. */
module AuthReceiver {
  import opened Wrappers
  import Text

  /** The message object built from a URL: key to value. */
  type Message = map<string, string>

  /** The characters the URL is cut at. */
  const UrlSeparators: set<char> := {'?', '#', '&'}

  const EqualsSign := '='

  /** Assigning a string to `message['__proto__']` changes no own property, so
      this key never appears in a message. */
  const ProtoKey := "__proto__"

  /** `url.split(/[?#&]/g)`: one more fragment than there are separators,
      none holding a separator, together spelling the URL without its
      separators. */
  function Fragments(url: string): (r: seq<string>)
    ensures |r| == Text.Count(url, UrlSeparators) + 1
    ensures forall i :: 0 <= i < |r| ==> Text.NoneIn(r[i], UrlSeparators)
    ensures Text.Flatten(r) == Text.Strip(url, UrlSeparators)
  {
    Text.SplitCount(url, UrlSeparators);
    Text.FlattenSplit(url, UrlSeparators);
    Text.Split(url, UrlSeparators)
  }

  /** Where the cuts fall: every separator ends one fragment and starts the
      next, and a URL without separators is a single fragment. */
  lemma FragmentsSpec(a: string, c: char, b: string)
    ensures c in UrlSeparators ==> Fragments(a + [c] + b) == Fragments(a) + Fragments(b)
    ensures Text.NoneIn(a, UrlSeparators) ==> Fragments(a) == [a]
  {
    if c in UrlSeparators {
      Text.SplitAroundSeparator(a, c, b, UrlSeparators);
    }
    if Text.NoneIn(a, UrlSeparators) {
      Text.SplitWithoutSeparator(a, UrlSeparators);
    }
  }

  /** `part.split('=')` in `urlArgsToMessage`: the key and value of a fragment when `part.split('=')` has
      exactly two pieces, that is, when the fragment holds exactly one `=`.
      Both sides are kept verbatim and may be empty. */
  function Entry(part: string): (r: Option<(string, string)>)
    ensures r.Some? <==> Text.Count(part, {EqualsSign}) == 1
    ensures r.Some? ==> part == r.value.0 + [EqualsSign] + r.value.1
    ensures r.Some? ==> Text.NoneIn(r.value.0, {EqualsSign}) && Text.NoneIn(r.value.1, {EqualsSign})
  {
    var pieces := Text.Split(part, {EqualsSign});
    Text.SplitCount(part, {EqualsSign});
    Text.JoinSplit(part, EqualsSign);
    if |pieces| == 2 then
      assert Text.Join(pieces, EqualsSign) == pieces[0] + [EqualsSign] + pieces[1];
      Some((pieces[0], pieces[1]))
    else None
  }

  /** The fragment carries an entry with key `k`. */
  predicate HasKey(part: string, k: string) {
    Entry(part).Some? && Entry(part).value.0 == k
  }

  /** The assignment `message[key] = value` for one fragment. */
  function Record(message: Message, part: string): Message {
    match Entry(part)
    case Some((k, v)) => if k == ProtoKey then message else message[k := v]
    case None => message
  }

  /** The `forEach` of `urlArgsToMessage`, fragments taken in order. */
  function Collect(parts: seq<string>): Message
    decreases |parts|
  {
    if parts == [] then map[]
    else Record(Collect(parts[..|parts| - 1]), parts[|parts| - 1])
  }

  /** A key is in the message exactly when some fragment carries it (and it is not `__proto__`). */
  lemma {:induction false} CollectDomain(parts: seq<string>, k: string)
    ensures k in Collect(parts) <==> k != ProtoKey && exists i :: 0 <= i < |parts| && HasKey(parts[i], k)
    decreases |parts|
  {
    if parts != [] {
      var n := |parts| - 1;
      var prefix := parts[..n];
      CollectDomain(prefix, k);
      if exists i :: 0 <= i < n && HasKey(prefix[i], k) {
        var i :| 0 <= i < n && HasKey(prefix[i], k);
        assert HasKey(parts[i], k);
      }
      if exists i :: 0 <= i < |parts| && HasKey(parts[i], k) {
        var i :| 0 <= i < |parts| && HasKey(parts[i], k);
        if i < n {
          assert HasKey(prefix[i], k);
        }
      }
    }
  }

  /** A repeated key takes the value of its last fragment. */
  lemma {:induction false} CollectLastWins(parts: seq<string>, i: nat, k: string)
    requires i < |parts| && HasKey(parts[i], k) && k != ProtoKey
    requires forall j :: i < j < |parts| ==> !HasKey(parts[j], k)
    ensures k in Collect(parts)
    ensures Collect(parts)[k] == Entry(parts[i]).value.1
    decreases |parts|
  {
    var n := |parts| - 1;
    if i < n {
      var prefix := parts[..n];
      assert !HasKey(parts[n], k);
      assert forall j :: i < j < n ==> prefix[j] == parts[j];
      CollectLastWins(prefix, i, k);
    }
  }

  /** What collecting a list of fragments yields, key by key. */
  lemma CollectSpec(parts: seq<string>)
    ensures forall k :: k in Collect(parts) <==>
              k != ProtoKey && exists i :: 0 <= i < |parts| && HasKey(parts[i], k)
    ensures forall i: nat, k ::
              (i < |parts| && HasKey(parts[i], k) && k != ProtoKey &&
               forall j :: i < j < |parts| ==> !HasKey(parts[j], k))
              ==> k in Collect(parts) && Collect(parts)[k] == Entry(parts[i]).value.1
  {
    forall k | true
      ensures k in Collect(parts) <==> k != ProtoKey && exists i :: 0 <= i < |parts| && HasKey(parts[i], k)
    {
      CollectDomain(parts, k);
    }
    forall i: nat, k | i < |parts| && HasKey(parts[i], k) && k != ProtoKey &&
                       forall j :: i < j < |parts| ==> !HasKey(parts[j], k)
      ensures k in Collect(parts) && Collect(parts)[k] == Entry(parts[i]).value.1
    {
      CollectLastWins(parts, i, k);
    }
  }

  /** `urlArgsToMessage(url)`: the message holds exactly the keys that some
      fragment with one `=` carries on its left, except `__proto__`; each maps
      to the right side of the LAST fragment carrying it. */
  function UrlArgsToMessage(url: string): (r: Message)
    ensures forall k :: k in r <==>
              k != ProtoKey && exists i :: 0 <= i < |Fragments(url)| && HasKey(Fragments(url)[i], k)
    ensures forall i: nat, k ::
              (i < |Fragments(url)| && HasKey(Fragments(url)[i], k) && k != ProtoKey &&
               forall j :: i < j < |Fragments(url)| ==> !HasKey(Fragments(url)[j], k))
              ==> k in r && r[k] == Entry(Fragments(url)[i]).value.1
  {
    CollectSpec(Fragments(url));
    Collect(Fragments(url))
  }

  /** A URL without `=` yields an empty message. */
  lemma NoEqualsSignNoMessage(url: string)
    requires EqualsSign !in url
    ensures UrlArgsToMessage(url) == map[]
  {
    var parts := Fragments(url);
    Text.SplitKeepsAbsence(url, UrlSeparators, EqualsSign);
    forall k | k in UrlArgsToMessage(url)
      ensures false
    {
      CollectDomain(parts, k);
    }
  }

  /** A fragment `k=v` whose sides hold no `=` is the entry (k, v). */
  lemma EntryOfPair(k: string, v: string)
    requires Text.NoneIn(k, {EqualsSign}) && Text.NoneIn(v, {EqualsSign})
    ensures Entry(k + [EqualsSign] + v) == Some((k, v))
  {
    Text.SplitAroundSeparator(k, EqualsSign, v, {EqualsSign});
    Text.SplitWithoutSeparator(k, {EqualsSign});
    Text.SplitWithoutSeparator(v, {EqualsSign});
  }

  /** Cutting a fragment `head` off the front of a URL at separator `c`. */
  lemma PeelFragment(url: string, head: string, c: char, rest: string, tail: seq<string>)
    requires c in UrlSeparators && Text.NoneIn(head, UrlSeparators)
    requires url == head + [c] + rest && Fragments(rest) == tail
    ensures Fragments(url) == [head] + tail
  {
    Text.SplitHead(head, c, rest, UrlSeparators);
  }

  /** The fragments of the example URL. The URL is a parameter so that the
      verifier peels it one separator at a time instead of unfolding `Split`
      on the whole literal. */
  lemma ExampleFragments(url: string)
    requires url == "?a=1&=x#a=2&b"
    ensures Fragments(url) == ["", "a=1", "=x", "a=2", "b"]
  {
    var r4 := "b";
    var r3 := "a=2" + ['&'] + r4;
    var r2 := "=x" + ['#'] + r3;
    var r1 := "a=1" + ['&'] + r2;
    assert url == "" + ['?'] + r1;
    Text.SplitWithoutSeparator(r4, UrlSeparators);
    PeelFragment(r3, "a=2", '&', r4, ["b"]);
    PeelFragment(r2, "=x", '#', r3, ["a=2", "b"]);
    PeelFragment(r1, "a=1", '&', r2, ["=x", "a=2", "b"]);
    PeelFragment(url, "", '?', r1, ["a=1", "=x", "a=2", "b"]);
  }

  /** One more fragment is one more `Record`. */
  lemma CollectStep(parts: seq<string>, n: nat)
    requires n < |parts|
    ensures Collect(parts[..n + 1]) == Record(Collect(parts[..n]), parts[n])
  {
    assert parts[..n + 1][..n] == parts[..n];
  }

  /** Collecting the fragments of the example URL. */
  lemma ExampleCollect()
    ensures Collect(["", "a=1", "=x", "a=2", "b"]) == map["a" := "2", "" := "x"]
  {
    var parts := ["", "a=1", "=x", "a=2", "b"];
    assert "a=1" == "a" + [EqualsSign] + "1";
    assert "=x" == "" + [EqualsSign] + "x";
    assert "a=2" == "a" + [EqualsSign] + "2";
    EntryOfPair("a", "1");
    EntryOfPair("", "x");
    EntryOfPair("a", "2");
    assert Entry("b").None?;
    assert Entry("").None?;
    assert Collect(parts[..0]) == map[];
    CollectStep(parts, 0);
    assert Collect(parts[..1]) == map[];
    CollectStep(parts, 1);
    assert Collect(parts[..2]) == map["a" := "1"];
    CollectStep(parts, 2);
    assert Collect(parts[..3]) == map["a" := "1", "" := "x"];
    CollectStep(parts, 3);
    assert Collect(parts[..4]) == map["a" := "2", "" := "x"];
    CollectStep(parts, 4);
    assert parts[..5] == parts;
  }

  /** A worked example: the empty key is kept, the bare fragment `b` is
      ignored, and the later `a` wins. */
  lemma UrlArgsExample()
    ensures UrlArgsToMessage("?a=1&=x#a=2&b") == map["a" := "2", "" := "x"]
  {
    ExampleFragments("?a=1&=x#a=2&b");
    ExampleCollect();
  }

  /** The test in `receive`: the message has a key other than `config`. */
  function HasKeysOtherThanConfig(message: Message): (r: bool)
    ensures r <==> exists k :: k in message && k != "config"
  {
    var others := message.Keys - {"config"};
    assert others != {} ==> exists k :: k in message && k != "config" by {
      if others != {} {
        var k :| k in others;
      }
    }
    assert (exists k :: k in message && k != "config") ==> others != {} by {
      if exists k :: k in message && k != "config" {
        var k :| k in message && k != "config";
        assert k in others;
      }
    }
    others != {}
  }

  /** The `receive` test on a URL: some fragment with one `=` has a key
      other than `config` (and `__proto__`). */
  lemma UrlHasKeysOtherThanConfig(url: string)
    ensures HasKeysOtherThanConfig(UrlArgsToMessage(url)) <==>
            exists i, k :: 0 <= i < |Fragments(url)| && HasKey(Fragments(url)[i], k) && k != "config" && k != ProtoKey
  {
    var parts := Fragments(url);
    if exists i, k :: 0 <= i < |parts| && HasKey(parts[i], k) && k != "config" && k != ProtoKey {
      var i, k :| 0 <= i < |parts| && HasKey(parts[i], k) && k != "config" && k != ProtoKey;
      CollectDomain(parts, k);
    }
    if HasKeysOtherThanConfig(UrlArgsToMessage(url)) {
      var k :| k in UrlArgsToMessage(url) && k != "config";
      CollectDomain(parts, k);
    }
  }
}
