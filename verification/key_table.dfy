/** The table of key codes a shortcut may end in (`getAllowedKeys` in
    app/scripts/comp/shortcuts.js). The host's key-code enumeration is an input:
    an ordered list of (symbolic name, code) entries, as `Object.entries` yields them. */
module KeyTable {
  import Text

  /** One entry of the key-code enumeration: symbolic name and numeric code. */
  type KeyEntry = (string, int)

  /** The prefix every symbolic key name carries. */
  const KeyPrefix := "DOM_VK_"

  predicate IsDigit(c: char) { '0' <= c <= '9' }

  predicate IsCapital(c: char) { 'A' <= c <= 'Z' }

  /** The strings the pattern `^([0-9A-Z]|F\d{1,2})$` accepts, listed by
      alternative: one digit or capital, `F` and one digit, `F` and two digits. */
  ghost const KeyNames: set<string> :=
    (set c: char | IsDigit(c) || IsCapital(c) :: [c])
    + (set d: char | IsDigit(d) :: ['F', d])
    + (set d: char, e: char | IsDigit(d) && IsDigit(e) :: ['F', d, e])

  /** The `test` of that pattern in `getAllowedKeys`, character by character. */
  predicate IsKeyName(s: string) {
    || (|s| == 1 && (IsDigit(s[0]) || IsCapital(s[0])))
    || (|s| == 2 && s[0] == 'F' && IsDigit(s[1]))
    || (|s| == 3 && s[0] == 'F' && IsDigit(s[1]) && IsDigit(s[2]))
  }

  /** The character test accepts exactly the strings the pattern lists. */
  lemma KeyNameLanguage(s: string)
    ensures IsKeyName(s) <==> s in KeyNames
  {
    if |s| == 1 {
      assert s == [s[0]];
    } else if |s| == 2 {
      assert s[0] == 'F' ==> s == ['F', s[1]];
    } else if |s| == 3 {
      assert s[0] == 'F' ==> s == ['F', s[1], s[2]];
    }
  }

  /** `name.replace('DOM_VK_', '')`: the candidate key name of a symbolic name,
      its first `DOM_VK_` removed. */
  function KeyNameOf(name: string): string {
    Text.ReplaceFirst(name, KeyPrefix, "")
  }

  /** `replace` removes the first `DOM_VK_` wherever it occurs, so the name
      shrinks by exactly the prefix's length; a name without it is kept whole. */
  lemma KeyNameOfSpec(name: string)
    ensures KeyPrefix <= name ==> KeyNameOf(name) == name[|KeyPrefix|..]
    ensures (forall k :: !Text.OccursAt(name, KeyPrefix, k)) ==> KeyNameOf(name) == name
    ensures (exists k :: Text.OccursAt(name, KeyPrefix, k)) ==> |KeyNameOf(name)| == |name| - |KeyPrefix|
  {
    match Text.IndexOf(name, KeyPrefix, 0)
    case None =>
    case Some(j) =>
      assert KeyNameOf(name) == name[..j] + "" + name[j + |KeyPrefix|..];
  }

  /** Entry `e` puts `code` into the table. */
  predicate Admits(e: KeyEntry, code: int) {
    e.1 == code && IsKeyName(KeyNameOf(e.0))
  }

  /** Every value of `t` is a key name. */
  predicate AllowedTable(t: map<int, string>) {
    forall code :: code in t ==> IsKeyName(t[code])
  }

  /** The loop over `Object.entries(Keys)` in `getAllowedKeys`: entries are
      visited in order and an admitted entry (over)writes its code, so a later
      admitted entry wins over an earlier one. */
  function BuildAllowedKeys(entries: seq<KeyEntry>): (t: map<int, string>)
    ensures AllowedTable(t)
    decreases |entries|
  {
    if entries == [] then map[]
    else
      var t := BuildAllowedKeys(entries[..|entries| - 1]);
      var e := entries[|entries| - 1];
      var keyName := KeyNameOf(e.0);
      if IsKeyName(keyName) then t[e.1 := keyName] else t
  }

  /** A code is in the table exactly when some entry admits it. */
  lemma {:induction false} AllowedKeysDomain(entries: seq<KeyEntry>, code: int)
    ensures code in BuildAllowedKeys(entries) <==> exists i :: 0 <= i < |entries| && Admits(entries[i], code)
    decreases |entries|
  {
    if entries != [] {
      var n := |entries| - 1;
      AllowedKeysDomain(entries[..n], code);
      AllowedKeysStep(entries, code);
      SomeEntryAdmitsStep(entries, entries[..n], code);
    }
  }

  /** Building over one more entry adds its code exactly when it is admitted. */
  lemma AllowedKeysStep(entries: seq<KeyEntry>, code: int)
    requires entries != []
    ensures code in BuildAllowedKeys(entries)
            <==> code in BuildAllowedKeys(entries[..|entries| - 1]) || Admits(entries[|entries| - 1], code)
  {
  }

  /** Some entry admits the code iff some earlier entry or the last one does. */
  lemma SomeEntryAdmitsStep(entries: seq<KeyEntry>, prefix: seq<KeyEntry>, code: int)
    requires entries != [] && prefix == entries[..|entries| - 1]
    ensures (exists i :: 0 <= i < |entries| && Admits(entries[i], code))
            <==> (exists i :: 0 <= i < |prefix| && Admits(prefix[i], code)) || Admits(entries[|entries| - 1], code)
  {
    var n := |prefix|;
    if exists i :: 0 <= i < n && Admits(prefix[i], code) {
      var i :| 0 <= i < n && Admits(prefix[i], code);
      assert Admits(entries[i], code);
    }
    if exists i :: 0 <= i < |entries| && Admits(entries[i], code) {
      var i :| 0 <= i < |entries| && Admits(entries[i], code);
      if i < n {
        assert Admits(prefix[i], code);
      }
    }
  }

  /** The code of the last entry admitting it maps to that entry's key name. */
  lemma {:induction false} AllowedKeysLastWins(entries: seq<KeyEntry>, i: nat, code: int)
    requires i < |entries| && Admits(entries[i], code)
    requires forall j :: i < j < |entries| ==> !Admits(entries[j], code)
    ensures code in BuildAllowedKeys(entries)
    ensures BuildAllowedKeys(entries)[code] == KeyNameOf(entries[i].0)
    decreases |entries|
  {
    var n := |entries| - 1;
    if i < n {
      var prefix := entries[..n];
      assert !Admits(entries[n], code);
      assert forall j :: i < j < n ==> prefix[j] == entries[j];
      AllowedKeysLastWins(prefix, i, code);
    }
  }

  /** A symbolic name `DOM_VK_x` contributes `x`. */
  lemma KeyNameOfPrefixed(x: string)
    ensures KeyNameOf(KeyPrefix + x) == x
  {
    assert KeyPrefix <= KeyPrefix + x;
    assert (KeyPrefix + x)[|KeyPrefix|..] == x;
  }

  /** Examples of the pattern: digits, capitals and F1..F24 pass; lower case,
      named keys and three-digit function keys do not. The pattern is wider
      than F1..F24: `F0`, `F05` and `F99` pass as well. */
  lemma KeyNameExamples()
    ensures IsKeyName("7") && IsKeyName("C") && IsKeyName("F1") && IsKeyName("F24")
    ensures IsKeyName("F0") && IsKeyName("F05") && IsKeyName("F99")
    ensures !IsKeyName("c") && !IsKeyName("") && !IsKeyName("F100") && !IsKeyName("ENTER") && !IsKeyName("FA")
  {
    assert "F100"[1..] != [];
    assert !IsDigit("FA"[1]);
  }

  /** The module-level `allowedKeys` cache: nothing built yet, or the table built on first use. */
  datatype KeyCache = Unbuilt | Built(table: map<int, string>)

  /** The cache is empty or holds the table of `entries`. */
  predicate CacheCoherent(cache: KeyCache, entries: seq<KeyEntry>) {
    cache.Unbuilt? || cache.table == BuildAllowedKeys(entries)
  }

  /** `getAllowedKeys()`: build the table on first use, afterwards return the cached one. */
  function GetAllowedKeys(cache: KeyCache, entries: seq<KeyEntry>): (r: (map<int, string>, KeyCache))
    ensures r.1 == Built(r.0)
    ensures cache.Built? ==> r.0 == cache.table
    ensures CacheCoherent(cache, entries) ==> r.0 == BuildAllowedKeys(entries) && CacheCoherent(r.1, entries)
  {
    match cache
    case Built(t) => (t, cache)
    case Unbuilt => var t := BuildAllowedKeys(entries); (t, Built(t))
  }

  /** Memoisation: a second call returns the first call's table unchanged,
      whatever enumeration it is given. */
  lemma GetAllowedKeysIsMemoised(cache: KeyCache, entries: seq<KeyEntry>, later: seq<KeyEntry>)
    ensures GetAllowedKeys(GetAllowedKeys(cache, entries).1, later) == GetAllowedKeys(cache, entries)
  {
  }
}
