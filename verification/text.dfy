/** The JavaScript string primitives the model needs: `split` on a character
    class, `Array.prototype.join`, and `String.prototype.replace` with a string
    pattern and a replacement holding no `$` (which replaces the first
    occurrence only; `$` substitution patterns are not expanded). */
module Text {
  import opened Wrappers

  /** No character of `s` is one of `seps`. */
  predicate NoneIn(s: string, seps: set<char>) {
    forall i :: 0 <= i < |s| ==> s[i] !in seps
  }

  /** Number of characters of `s` that belong to `seps`. */
  function Count(s: string, seps: set<char>): nat {
    if s == [] then 0
    else (if s[0] in seps then 1 else 0) + Count(s[1..], seps)
  }

  /** `s` with every character of `seps` removed. */
  function Strip(s: string, seps: set<char>): (r: string)
    ensures NoneIn(r, seps)
  {
    if s == [] then ""
    else if s[0] in seps then Strip(s[1..], seps)
    else [s[0]] + Strip(s[1..], seps)
  }

  /** Concatenation of all pieces, as `Array.prototype.join('')`. */
  function Flatten(pieces: seq<string>): string {
    if pieces == [] then "" else pieces[0] + Flatten(pieces[1..])
  }

  /** Apply `f` to every piece and concatenate the results. */
  function ConcatMap(f: string -> string, pieces: seq<string>): string {
    if pieces == [] then "" else f(pieces[0]) + ConcatMap(f, pieces[1..])
  }

  /** Mapping and concatenating distributes over appending the piece lists. */
  lemma {:induction false} ConcatMapAppend(f: string -> string, a: seq<string>, b: seq<string>)
    ensures ConcatMap(f, a + b) == ConcatMap(f, a) + ConcatMap(f, b)
    decreases |a|
  {
    if a == [] {
      assert a + b == b;
    } else {
      ConcatMapAppend(f, a[1..], b);
      assert (a + b)[0] == a[0] && (a + b)[1..] == a[1..] + b;
    }
  }

  /** `s.split(/[seps]/g)`: cut at every separator character, dropping it.
      Adjacent separators give empty pieces; there is always at least one piece. */
  function Split(s: string, seps: set<char>): (r: seq<string>)
    ensures |r| >= 1
    ensures forall i :: 0 <= i < |r| ==> NoneIn(r[i], seps)
  {
    if s == [] then [""]
    else if s[0] in seps then [""] + Split(s[1..], seps)
    else
      var rest := Split(s[1..], seps);
      [[s[0]] + rest[0]] + rest[1..]
  }

  /** `pieces.join(sep)`; the join of no pieces is the empty string. */
  function Join(pieces: seq<string>, sep: char): string {
    if |pieces| == 0 then ""
    else if |pieces| == 1 then pieces[0]
    else pieces[0] + [sep] + Join(pieces[1..], sep)
  }

  /** A separator splits the text around it into independent halves. */
  lemma {:induction false} SplitAroundSeparator(a: string, c: char, b: string, seps: set<char>)
    requires c in seps
    ensures Split(a + [c] + b, seps) == Split(a, seps) + Split(b, seps)
    decreases |a|
  {
    if a == [] {
      assert a + [c] + b == [c] + b;
      assert ([c] + b)[1..] == b;
    } else {
      assert (a + [c] + b)[0] == a[0];
      assert (a + [c] + b)[1..] == a[1..] + [c] + b;
      SplitAroundSeparator(a[1..], c, b, seps);
    }
  }

  /** A separator-free head followed by a separator is the first piece. */
  lemma SplitHead(a: string, c: char, b: string, seps: set<char>)
    requires c in seps && NoneIn(a, seps)
    ensures Split(a + [c] + b, seps) == [a] + Split(b, seps)
  {
    SplitAroundSeparator(a, c, b, seps);
    SplitWithoutSeparator(a, seps);
  }

  /** Text without separators is a single piece. */
  lemma {:induction false} SplitWithoutSeparator(s: string, seps: set<char>)
    requires NoneIn(s, seps)
    ensures Split(s, seps) == [s]
    decreases |s|
  {
    if s != [] {
      SplitWithoutSeparator(s[1..], seps);
      assert [s[0]] + s[1..] == s;
    }
  }

  /** Splitting yields one more piece than there are separators. */
  lemma {:induction false} SplitCount(s: string, seps: set<char>)
    ensures |Split(s, seps)| == Count(s, seps) + 1
    decreases |s|
  {
    if s != [] {
      SplitCount(s[1..], seps);
    }
  }

  /** Split then join restores the text. */
  lemma {:induction false} JoinSplit(s: string, c: char)
    ensures Join(Split(s, {c}), c) == s
    decreases |s|
  {
    if s != [] {
      JoinSplit(s[1..], c);
      var rest := Split(s[1..], {c});
      if s[0] == c {
        assert Split(s, {c}) == [""] + rest;
        assert s == [c] + s[1..];
      } else {
        var r := Split(s, {c});
        assert r == [[s[0]] + rest[0]] + rest[1..];
        if |rest| == 1 {
          assert s == [s[0]] + s[1..];
        } else {
          assert r[1..] == rest[1..];
          assert Join(rest, c) == rest[0] + [c] + Join(rest[1..], c);
          assert s == [s[0]] + s[1..];
        }
      }
    }
  }

  /** Joining one more piece appends a separator and that piece. */
  lemma {:induction false} JoinAppend(pieces: seq<string>, last: string, c: char)
    requires |pieces| >= 1
    ensures Join(pieces + [last], c) == Join(pieces, c) + [c] + last
    decreases |pieces|
  {
    if |pieces| > 1 {
      JoinAppend(pieces[1..], last, c);
      assert (pieces + [last])[1..] == pieces[1..] + [last];
    }
  }

  /** Join then split restores the pieces, provided none of them holds the separator. */
  lemma {:induction false} SplitJoin(pieces: seq<string>, c: char)
    requires |pieces| >= 1
    requires forall i :: 0 <= i < |pieces| ==> NoneIn(pieces[i], {c})
    ensures Split(Join(pieces, c), {c}) == pieces
    decreases |pieces|
  {
    if |pieces| == 1 {
      SplitWithoutSeparator(pieces[0], {c});
    } else {
      SplitJoin(pieces[1..], c);
      SplitAroundSeparator(pieces[0], c, Join(pieces[1..], c), {c});
      SplitWithoutSeparator(pieces[0], {c});
      assert pieces == [pieces[0]] + pieces[1..];
    }
  }

  /** Concatenating the pieces of a split gives the text without its separators. */
  lemma {:induction false} FlattenSplit(s: string, seps: set<char>)
    ensures Flatten(Split(s, seps)) == Strip(s, seps)
    decreases |s|
  {
    if s != [] {
      FlattenSplit(s[1..], seps);
      var rest := Split(s[1..], seps);
      if s[0] in seps {
        assert Split(s, seps) == [""] + rest;
        assert ([""] + rest)[1..] == rest;
      } else {
        var r := Split(s, seps);
        assert r[0] == [s[0]] + rest[0];
        assert r[1..] == rest[1..];
        assert Flatten(rest) == rest[0] + Flatten(rest[1..]);
      }
    }
  }

  /** A character absent from the text is absent from every piece of its split. */
  lemma {:induction false} SplitKeepsAbsence(s: string, seps: set<char>, c: char)
    requires c !in s
    ensures forall i :: 0 <= i < |Split(s, seps)| ==> c !in Split(s, seps)[i]
    decreases |s|
  {
    if s != [] {
      assert c !in s[1..];
      SplitKeepsAbsence(s[1..], seps, c);
    }
  }

  /** `pat` occurs in `s` starting at index `k`. */
  predicate OccursAt(s: string, pat: string, k: nat) {
    k + |pat| <= |s| && s[k..k + |pat|] == pat
  }

  /** `pat` occurs at `j` and nowhere before. */
  predicate FirstOccurrence(s: string, pat: string, j: nat) {
    OccursAt(s, pat, j) && forall k: nat :: k < j ==> !OccursAt(s, pat, k)
  }

  /** `s.indexOf(pat, from)`: the first occurrence at or after `from`. */
  function IndexOf(s: string, pat: string, from: nat): (r: Option<nat>)
    ensures r.Some? ==> from <= r.value && OccursAt(s, pat, r.value)
    ensures r.Some? ==> forall k :: from <= k < r.value ==> !OccursAt(s, pat, k)
    ensures r.None? ==> forall k :: from <= k ==> !OccursAt(s, pat, k)
    decreases |s| - from
  {
    if from + |pat| > |s| then None
    else if s[from..from + |pat|] == pat then Some(from)
    else IndexOf(s, pat, from + 1)
  }

  /** `s.replace(pat, rep)` with a string pattern and a replacement holding no
      `$`: only the first occurrence is replaced, and `rep` is inserted as is. */
  function ReplaceFirst(s: string, pat: string, rep: string): (r: string)
    ensures pat <= s ==> r == rep + s[|pat|..]
    ensures (forall k :: !OccursAt(s, pat, k)) ==> r == s
  {
    match IndexOf(s, pat, 0)
    case None => s
    case Some(j) => s[..j] + rep + s[j + |pat|..]
  }

  /** Whatever the position of the first occurrence, exactly that occurrence
      is replaced and everything around it is kept (for a `$`-free `rep`, as
      `replace` does). */
  lemma ReplaceFirstSpec(s: string, pat: string, rep: string, j: nat)
    requires FirstOccurrence(s, pat, j)
    ensures ReplaceFirst(s, pat, rep) == s[..j] + rep + s[j + |pat|..]
  {
    var i := IndexOf(s, pat, 0).value;
    assert !(i < j) && !(j < i);
  }
}
