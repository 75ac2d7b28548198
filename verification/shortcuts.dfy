/** The keyboard-shortcut subsystem of app/scripts/comp/shortcuts.js: turning a
    key press into a canonical `Mod+…+Key` string, rendering such a string for
    display, resolving the global shortcut of an action (user override, then
    platform default), and changing an override. The platform flags, the
    key-code table and the settings store are parameters. */
module Shortcuts {
  import opened Wrappers
  import Text
  import KeyTable

  /** The platform facts the subsystem consults. */
  datatype Platform = Platform(isMac: bool, isWindows: bool, isiOS: bool, isMobile: bool)

  /** The parts of a key press the translator reads; `which` is the key code. */
  datatype KeyEvent = KeyEvent(ctrlKey: bool, altKey: bool, shiftKey: bool, metaKey: bool, which: int)

  /** A translated key press: the canonical string and whether it may be bound. */
  datatype Translation = Translation(value: string, valid: bool)

  /** Placeholder for a key code without a key name. */
  const Ellipsis := "\U{2026}"

  /** Separator between the tokens of a shortcut string. */
  const Plus := '+'

  /** The modifier keys a shortcut may carry, in their canonical order. */
  datatype Modifier = Ctrl | Alt | Shift | Meta {
    /** The token naming the modifier in a shortcut string. */
    function Name(): string {
      match this
      case Ctrl => "Ctrl"
      case Alt => "Alt"
      case Shift => "Shift"
      case Meta => "Meta"
    }

    /** Position in the canonical order Ctrl, Alt, Shift, Meta. */
    function Rank(): nat {
      match this
      case Ctrl => 0
      case Alt => 1
      case Shift => 2
      case Meta => 3
    }

    /** Reference table of presentation: the Mac glyph of the modifier. */
    function Glyph(): char {
      match this
      case Ctrl => '\U{2303}'
      case Alt => '\U{2325}'
      case Shift => '\U{21E7}'
      case Meta => '\U{2318}'
    }

    /** Reference table of presentation: the word used off a Mac. Meta
        borrows Ctrl's word. */
    function Word(): string {
      match this
      case Ctrl => "ctrl"
      case Alt => "alt"
      case Shift => "shift"
      case Meta => "ctrl"
    }
  }

  /** The token is one of the four modifier names. */
  predicate IsModifier(token: string) {
    token == "Ctrl" || token == "Alt" || token == "Shift" || token == "Meta"
  }

  /** Some modifier of the event is collected on this platform. */
  predicate HasModifier(p: Platform, e: KeyEvent) {
    e.ctrlKey || e.altKey || e.shiftKey || (p.isMac && e.metaKey)
  }

  // ---------------------------------------------------------------------------
  // Event translation (`keyEventToShortcut`)
  // ---------------------------------------------------------------------------

  /** The pushes of `keyEventToShortcut`, one `if` per modifier, in source order. */
  function Pushed(p: Platform, e: KeyEvent): seq<Modifier> {
    (if e.ctrlKey then [Ctrl] else [])
    + (if e.altKey then [Alt] else [])
    + (if e.shiftKey then [Shift] else [])
    + (if p.isMac && e.metaKey then [Meta] else [])
  }

  /** The pushes come out in strictly increasing canonical rank. */
  lemma PushedInRankOrder(p: Platform, e: KeyEvent)
    ensures forall i, j :: 0 <= i < j < |Pushed(p, e)| ==> Pushed(p, e)[i].Rank() < Pushed(p, e)[j].Rank()
  {
  }

  /** A modifier is pushed exactly when its flag is set (Meta only on a Mac). */
  lemma PushedMembers(p: Platform, e: KeyEvent)
    ensures (Ctrl in Pushed(p, e) <==> e.ctrlKey) && (Alt in Pushed(p, e) <==> e.altKey)
    ensures (Shift in Pushed(p, e) <==> e.shiftKey) && (Meta in Pushed(p, e) <==> p.isMac && e.metaKey)
  {
  }

  /** The modifiers `keyEventToShortcut` collects: in canonical order, each at most once,
      Meta only on a Mac. */
  function Modifiers(p: Platform, e: KeyEvent): (r: seq<Modifier>)
    ensures forall i, j :: 0 <= i < j < |r| ==> r[i].Rank() < r[j].Rank()
    ensures (Ctrl in r <==> e.ctrlKey) && (Alt in r <==> e.altKey) && (Shift in r <==> e.shiftKey)
    ensures Meta in r <==> p.isMac && e.metaKey
    ensures |r| > 0 <==> HasModifier(p, e)
  {
    PushedInRankOrder(p, e);
    PushedMembers(p, e);
    Pushed(p, e)
  }

  /** The tokens of a list of modifiers. */
  function Names(modifiers: seq<Modifier>): (r: seq<string>)
    ensures |r| == |modifiers|
    ensures forall i :: 0 <= i < |r| ==> r[i] == modifiers[i].Name()
  {
    if modifiers == [] then [] else [modifiers[0].Name()] + Names(modifiers[1..])
  }

  /** The key code has a (truthy) key name in the table. */
  predicate HasKeyName(allowed: map<int, string>, which: int) {
    which in allowed && allowed[which] != ""
  }

  /** `keyName || '…'`: the last token of the translation. */
  function KeyToken(allowed: map<int, string>, which: int): string {
    if HasKeyName(allowed, which) then allowed[which] else Ellipsis
  }

  /** `keyEventToShortcut(event)` against the key table `allowed`. */
  function KeyEventToShortcut(p: Platform, e: KeyEvent, allowed: map<int, string>): (r: Translation)
    ensures r.valid <==> HasModifier(p, e) && HasKeyName(allowed, e.which)
    ensures |r.value| > 0 && (r.value[0] == Plus <==> !HasModifier(p, e))
  {
    var modifiers := Modifiers(p, e);
    Translation(Text.Join(Names(modifiers), Plus) + [Plus] + KeyToken(allowed, e.which),
                |modifiers| > 0 && HasKeyName(allowed, e.which))
  }

  /** The tokens before the key token: the modifier names, or a single empty
      token when there are none (the string then starts with `+`). */
  function LeadingTokens(modifiers: seq<Modifier>): seq<string> {
    if modifiers == [] then [""] else Names(modifiers)
  }

  /** Neither a modifier name nor a key token contains the separator. */
  lemma TokensWithoutPlus(allowed: map<int, string>, which: int, modifiers: seq<Modifier>)
    requires KeyTable.AllowedTable(allowed)
    ensures Text.NoneIn(KeyToken(allowed, which), {Plus})
    ensures !IsModifier(KeyToken(allowed, which))
    ensures forall i :: 0 <= i < |LeadingTokens(modifiers)| ==> Text.NoneIn(LeadingTokens(modifiers)[i], {Plus})
  {
    if HasKeyName(allowed, which) {
      assert KeyTable.IsKeyName(allowed[which]);
    }
    forall i | 0 <= i < |LeadingTokens(modifiers)|
      ensures Text.NoneIn(LeadingTokens(modifiers)[i], {Plus})
    {
      if modifiers != [] {
        match modifiers[i]
        case Ctrl => case Alt => case Shift => case Meta =>
      }
    }
  }

  /** Decoding a translation: splitting its value at `+` gives back the
      collected modifiers followed by the key name or placeholder. */
  lemma TranslationTokens(p: Platform, e: KeyEvent, allowed: map<int, string>)
    requires KeyTable.AllowedTable(allowed)
    ensures Text.Split(KeyEventToShortcut(p, e, allowed).value, {Plus})
            == LeadingTokens(Modifiers(p, e)) + [KeyToken(allowed, e.which)]
  {
    var modifiers := Modifiers(p, e);
    var token := KeyToken(allowed, e.which);
    var pieces := LeadingTokens(modifiers) + [token];
    Text.JoinAppend(LeadingTokens(modifiers), token, Plus);
    assert Text.Join(LeadingTokens(modifiers), Plus) == Text.Join(Names(modifiers), Plus);
    TokensWithoutPlus(allowed, e.which, modifiers);
    assert forall i :: 0 <= i < |pieces| ==> Text.NoneIn(pieces[i], {Plus}) by {
      forall i | 0 <= i < |pieces|
        ensures Text.NoneIn(pieces[i], {Plus})
      {
        if i < |pieces| - 1 {
          assert pieces[i] == LeadingTokens(modifiers)[i];
        }
      }
    }
    Text.SplitJoin(pieces, Plus);
  }

  /** `keyEventToShortcut` as called: the key table comes from the cache. */
  function TranslateKeyEvent(p: Platform, e: KeyEvent, cache: KeyTable.KeyCache,
                             entries: seq<KeyTable.KeyEntry>): (r: (Translation, KeyTable.KeyCache))
    ensures r.1.Built?
    ensures KeyTable.CacheCoherent(cache, entries) ==>
              r.0 == KeyEventToShortcut(p, e, KeyTable.BuildAllowedKeys(entries))
              && KeyTable.CacheCoherent(r.1, entries)
  {
    var (allowed, cache') := KeyTable.GetAllowedKeys(cache, entries);
    (KeyEventToShortcut(p, e, allowed), cache')
  }

  /** Ctrl+Alt+C off a Mac translates to the valid string `Ctrl+Alt+C`. */
  lemma TranslateExample(allowed: map<int, string>)
    requires 67 in allowed && allowed[67] == "C"
    ensures KeyEventToShortcut(Platform(false, true, false, false),
                               KeyEvent(true, true, false, false, 67), allowed)
            == Translation("Ctrl+Alt+C", true)
  {
    var p := Platform(false, true, false, false);
    var e := KeyEvent(true, true, false, false, 67);
    assert Modifiers(p, e) == [Ctrl, Alt];
    assert Names([Ctrl, Alt]) == ["Ctrl", "Alt"];
    assert Text.Join(["Ctrl", "Alt"], Plus) == "Ctrl+Alt";
  }

  // ---------------------------------------------------------------------------
  // Rendering (`presentShortcut` and the four symbol helpers)
  // ---------------------------------------------------------------------------

  /** The HTML the formatted, non-Mac symbols use. */
  function ThinSpan(word: string): string {
    "<span class=\"thin\">" + word + " + </span>"
  }

  /** The shared shape of the four symbol helpers: a glyph on a Mac, otherwise
      the word in a thin span when formatting, else the word and `+`. */
  function PlatformSymbol(p: Platform, formatting: bool, glyph: string, word: string): string {
    if p.isMac then glyph else if formatting then ThinSpan(word) else word + "+"
  }

  /** `r` is how modifier `m` is shown: by the reference tables below, its
      glyph on a Mac, otherwise its word in a thin span or followed by `+`. */
  predicate ShowsModifier(p: Platform, formatting: bool, m: Modifier, r: string) {
    if p.isMac then r == [m.Glyph()]
    else if formatting then r == ThinSpan(m.Word())
    else r == m.Word() + "+"
  }

  /** `actionShortcutSymbol`: Meta. Off a Mac it reads exactly like Ctrl. */
  function ActionShortcutSymbol(p: Platform, formatting: bool): (r: string)
    ensures ShowsModifier(p, formatting, Meta, r)
    ensures !p.isMac ==> r == CtrlShortcutSymbol(p, formatting)
  {
    PlatformSymbol(p, formatting, "\U{2318}", "ctrl")
  }

  /** `altShortcutSymbol`. */
  function AltShortcutSymbol(p: Platform, formatting: bool): (r: string)
    ensures ShowsModifier(p, formatting, Alt, r)
  {
    PlatformSymbol(p, formatting, "\U{2325}", "alt")
  }

  /** `shiftShortcutSymbol`. */
  function ShiftShortcutSymbol(p: Platform, formatting: bool): (r: string)
    ensures ShowsModifier(p, formatting, Shift, r)
  {
    PlatformSymbol(p, formatting, "\U{21E7}", "shift")
  }

  /** `ctrlShortcutSymbol`. */
  function CtrlShortcutSymbol(p: Platform, formatting: bool): (r: string)
    ensures ShowsModifier(p, formatting, Ctrl, r)
  {
    PlatformSymbol(p, formatting, "\U{2303}", "ctrl")
  }

  /** The `switch` inside `presentShortcut`: modifiers become symbols, anything else passes through. */
  function RenderToken(p: Platform, formatting: bool, token: string): string {
    if token == "Ctrl" then CtrlShortcutSymbol(p, formatting)
    else if token == "Alt" then AltShortcutSymbol(p, formatting)
    else if token == "Shift" then ShiftShortcutSymbol(p, formatting)
    else if token == "Meta" then ActionShortcutSymbol(p, formatting)
    else token
  }

  /** Render every token and concatenate with no separator. */
  function RenderTokens(p: Platform, formatting: bool, tokens: seq<string>): string {
    Text.ConcatMap(token => RenderToken(p, formatting, token), tokens)
  }

  /** `presentShortcut(shortcutValue, formatting)`: on a Mac the result holds
      no `+` at all; a lone token that is not a modifier is shown verbatim. */
  function PresentShortcut(p: Platform, shortcut: string, formatting: bool): (r: string)
    ensures p.isMac ==> Plus !in r
    ensures Text.NoneIn(shortcut, {Plus}) && !IsModifier(shortcut) ==> r == shortcut
  {
    var tokens := Text.Split(shortcut, {Plus});
    assert p.isMac ==> Plus !in RenderTokens(p, formatting, tokens) by {
      if p.isMac {
        MacRenderingHasNoPlus(p, formatting, tokens);
      }
    }
    assert Text.NoneIn(shortcut, {Plus}) && !IsModifier(shortcut) ==> RenderTokens(p, formatting, tokens) == shortcut by {
      if Text.NoneIn(shortcut, {Plus}) && !IsModifier(shortcut) {
        Text.SplitWithoutSeparator(shortcut, {Plus});
        RenderTokensSingle(p, formatting, shortcut);
      }
    }
    RenderTokens(p, formatting, tokens)
  }

  /** On a Mac, tokens without `+` render without `+`: each modifier becomes a
      single glyph and every other token is copied. */
  lemma {:induction false} MacRenderingHasNoPlus(p: Platform, formatting: bool, tokens: seq<string>)
    requires p.isMac
    requires forall i :: 0 <= i < |tokens| ==> Text.NoneIn(tokens[i], {Plus})
    ensures Plus !in RenderTokens(p, formatting, tokens)
    decreases |tokens|
  {
    if tokens != [] {
      MacRenderingHasNoPlus(p, formatting, tokens[1..]);
      var head := tokens[0];
      assert Text.NoneIn(head, {Plus});
      assert Plus !in RenderToken(p, formatting, head);
    }
  }

  /** Symbol choice: on a Mac a modifier renders as its one-character glyph
      whatever the formatting flag; elsewhere as its word in a thin span when
      formatting, or as the word and `+` when not. Meta and Ctrl share their
      non-Mac text. */
  lemma SymbolChoice(p: Platform, formatting: bool, m: Modifier)
    ensures IsModifier(m.Name())
    ensures ShowsModifier(p, formatting, m, RenderToken(p, formatting, m.Name()))
    ensures p.isMac ==> RenderToken(p, !formatting, m.Name()) == RenderToken(p, formatting, m.Name())
    ensures !p.isMac ==> RenderToken(p, formatting, "Meta") == RenderToken(p, formatting, "Ctrl")
  {
  }

  /** A single token renders on its own. */
  lemma RenderTokensSingle(p: Platform, formatting: bool, token: string)
    ensures RenderTokens(p, formatting, [token]) == RenderToken(p, formatting, token)
  {
    var render := t => RenderToken(p, formatting, t);
    assert [token][1..] == [];
    assert Text.ConcatMap(render, [token]) == render(token) + Text.ConcatMap(render, []);
  }

  /** Rendering distributes over concatenation of token lists. */
  lemma RenderTokensAppend(p: Platform, formatting: bool, a: seq<string>, b: seq<string>)
    ensures RenderTokens(p, formatting, a + b) == RenderTokens(p, formatting, a) + RenderTokens(p, formatting, b)
    decreases |a|
  {
    Text.ConcatMapAppend(token => RenderToken(p, formatting, token), a, b);
  }

  /** With no modifier among the tokens, rendering is plain concatenation. */
  lemma {:induction false} RenderTokensPlain(p: Platform, formatting: bool, tokens: seq<string>)
    requires forall i :: 0 <= i < |tokens| ==> !IsModifier(tokens[i])
    ensures RenderTokens(p, formatting, tokens) == Text.Flatten(tokens)
    decreases |tokens|
  {
    if tokens != [] {
      RenderTokensPlain(p, formatting, tokens[1..]);
    }
  }

  /** Presenting `a+b` is presenting `a` followed by presenting `b`. */
  lemma PresentAroundPlus(p: Platform, formatting: bool, a: string, b: string)
    ensures PresentShortcut(p, a + [Plus] + b, formatting)
            == PresentShortcut(p, a, formatting) + PresentShortcut(p, b, formatting)
  {
    Text.SplitAroundSeparator(a, Plus, b, {Plus});
    RenderTokensAppend(p, formatting, Text.Split(a, {Plus}), Text.Split(b, {Plus}));
  }

  /** Tokens other than the four modifiers pass through verbatim: when no token
      is a modifier, presenting just drops the `+` separators. */
  lemma PresentPassesThrough(p: Platform, formatting: bool, s: string)
    requires forall i :: 0 <= i < |Text.Split(s, {Plus})| ==> !IsModifier(Text.Split(s, {Plus})[i])
    ensures PresentShortcut(p, s, formatting) == Text.Strip(s, {Plus})
  {
    RenderTokensPlain(p, formatting, Text.Split(s, {Plus}));
    Text.FlattenSplit(s, {Plus});
  }

  /** Presenting a translated key press renders its modifiers and then shows
      the key name (or the placeholder) verbatim at the end. */
  lemma PresentOfTranslation(p: Platform, formatting: bool, e: KeyEvent, allowed: map<int, string>)
    requires KeyTable.AllowedTable(allowed)
    ensures PresentShortcut(p, KeyEventToShortcut(p, e, allowed).value, formatting)
            == RenderTokens(p, formatting, Names(Modifiers(p, e))) + KeyToken(allowed, e.which)
  {
    var token := KeyToken(allowed, e.which);
    var leading := LeadingTokens(Modifiers(p, e));
    TranslationTokens(p, e, allowed);
    RenderTokensAppend(p, formatting, leading, [token]);
    TokensWithoutPlus(allowed, e.which, Modifiers(p, e));
    RenderTokensSingle(p, formatting, token);
    assert RenderTokens(p, formatting, leading) == RenderTokens(p, formatting, Names(Modifiers(p, e))) by {
      if Modifiers(p, e) == [] {
        assert RenderTokens(p, formatting, [""]) == "";
      }
    }
  }

  /** A string without `+` is one token and renders as that token. */
  lemma PresentSingleToken(p: Platform, formatting: bool, token: string)
    requires Text.NoneIn(token, {Plus})
    ensures PresentShortcut(p, token, formatting) == RenderToken(p, formatting, token)
  {
    Text.SplitWithoutSeparator(token, {Plus});
    RenderTokensSingle(p, formatting, token);
  }

  /** `Shift+Alt+C` renders its two modifiers and then `C`, on any platform. */
  lemma PresentShiftAltC(p: Platform, formatting: bool)
    ensures PresentShortcut(p, "Shift+Alt+C", formatting)
            == RenderToken(p, formatting, "Shift") + RenderToken(p, formatting, "Alt") + "C"
  {
    assert "Shift+Alt+C" == "Shift" + [Plus] + ("Alt" + [Plus] + "C");
    PresentAroundPlus(p, formatting, "Shift", "Alt" + [Plus] + "C");
    PresentAroundPlus(p, formatting, "Alt", "C");
    PresentSingleToken(p, formatting, "Shift");
    PresentSingleToken(p, formatting, "Alt");
    PresentSingleToken(p, formatting, "C");
  }

  /** Worked examples: `Shift+Alt+C` on a Mac and, formatted or not, elsewhere. */
  lemma PresentExamples()
    ensures PresentShortcut(Platform(true, false, false, false), "Shift+Alt+C", false)
            == "\U{21E7}\U{2325}C"
    ensures PresentShortcut(Platform(false, true, false, false), "Shift+Alt+C", true)
            == ThinSpan("shift") + ThinSpan("alt") + "C"
    ensures PresentShortcut(Platform(false, true, false, false), "Shift+Alt+C", false)
            == "shift+alt+C"
  {
    PresentShiftAltC(Platform(true, false, false, false), false);
    PresentShiftAltC(Platform(false, true, false, false), true);
    PresentShiftAltC(Platform(false, true, false, false), false);
  }

  // ---------------------------------------------------------------------------
  // Resolution and update (`globalShortcuts`, `globalShortcut`, `setGlobalShortcut`)
  // ---------------------------------------------------------------------------

  /** A built-in default: the Mac string and the string for every other platform. */
  datatype DefaultShortcut = DefaultShortcut(mac: string, all: string)

  /** `globalShortcuts`, the built-in defaults per action type. */
  const Defaults: map<string, DefaultShortcut> := map[
    "copyPassword" := DefaultShortcut("Ctrl+Alt+C", "Shift+Alt+C"),
    "copyUser" := DefaultShortcut("Ctrl+Alt+B", "Shift+Alt+B"),
    "copyUrl" := DefaultShortcut("Ctrl+Alt+U", "Shift+Alt+U"),
    "autoType" := DefaultShortcut("Ctrl+Alt+T", "Shift+Alt+T")
  ]

  /** The settings store: key/value pairs. */
  type Settings = map<string, string>

  /** The settings and every snapshot handed to the OS registrar so far. */
  datatype AppState = AppState(settings: Settings, registrarLog: seq<Settings>)

  function UpperAscii(c: char): char {
    if 'a' <= c <= 'z' then (c as int - 32) as char else c
  }

  /** `StringFormat.capFirst`, assumed to upper-case the first character only. */
  function CapFirst(s: string): string {
    if s == [] then "" else [UpperAscii(s[0])] + s[1..]
  }

  const SettingsKeyPrefix := "globalShortcut"

  /** `globalShortcutAppSettingsKey(type)`. */
  function GlobalShortcutAppSettingsKey(actionType: string): (r: string)
    ensures |r| == |SettingsKeyPrefix| + |actionType|
    ensures SettingsKeyPrefix <= r
  {
    SettingsKeyPrefix + CapFirst(actionType)
  }

  /** Two action types share a settings key only if they differ at most in the
      case of their first letter. */
  lemma SettingsKeyDeterminesType(a: string, b: string)
    requires GlobalShortcutAppSettingsKey(a) == GlobalShortcutAppSettingsKey(b)
    ensures |a| == |b| && (a != [] ==> a[1..] == b[1..] && UpperAscii(a[0]) == UpperAscii(b[0]))
  {
    var n := |SettingsKeyPrefix|;
    assert CapFirst(a) == GlobalShortcutAppSettingsKey(a)[n..] == CapFirst(b);
    if a != [] {
      assert CapFirst(a)[1..] == a[1..];
      assert CapFirst(b)[1..] == b[1..];
    }
  }

  /** The settings key spelled out: `globalShortcut`, then the type's first
      character upper-cased, then the rest of the type unchanged. */
  lemma SettingsKeySpelling(actionType: string)
    ensures actionType == [] ==> GlobalShortcutAppSettingsKey(actionType) == SettingsKeyPrefix
    ensures actionType != [] ==>
              && GlobalShortcutAppSettingsKey(actionType)[|SettingsKeyPrefix|] == UpperAscii(actionType[0])
              && GlobalShortcutAppSettingsKey(actionType)[|SettingsKeyPrefix| + 1..] == actionType[1..]
  {
    if actionType != [] {
      assert GlobalShortcutAppSettingsKey(actionType)[|SettingsKeyPrefix|..] == CapFirst(actionType);
    }
  }

  /** The settings key of a type whose first character is a lower-case letter. */
  lemma SettingsKeyOfLowerType(actionType: string, first: char, rest: string, key: string)
    requires 'a' <= first <= 'z' && actionType == [first] + rest
    requires key == SettingsKeyPrefix + [(first as int - 32) as char] + rest
    ensures GlobalShortcutAppSettingsKey(actionType) == key
  {
    assert CapFirst(actionType) == [UpperAscii(first)] + rest;
  }

  /** The settings keys of the built-in actions, one lemma each so that every
      literal is compared on its own. */
  lemma CopyPasswordSettingsKey()
    ensures GlobalShortcutAppSettingsKey("copyPassword") == "globalShortcutCopyPassword"
  {
    SettingsKeyOfLowerType("copyPassword", 'c', "opyPassword", "globalShortcutCopyPassword");
  }

  lemma CopyUserSettingsKey()
    ensures GlobalShortcutAppSettingsKey("copyUser") == "globalShortcutCopyUser"
  {
    SettingsKeyOfLowerType("copyUser", 'c', "opyUser", "globalShortcutCopyUser");
  }

  lemma CopyUrlSettingsKey()
    ensures GlobalShortcutAppSettingsKey("copyUrl") == "globalShortcutCopyUrl"
  {
    SettingsKeyOfLowerType("copyUrl", 'c', "opyUrl", "globalShortcutCopyUrl");
  }

  lemma AutoTypeSettingsKey()
    ensures GlobalShortcutAppSettingsKey("autoType") == "globalShortcutAutoType"
  {
    SettingsKeyOfLowerType("autoType", 'a', "utoType", "globalShortcutAutoType");
  }

  /** The settings keys of the built-in actions. */
  lemma DefaultSettingsKeys()
    ensures GlobalShortcutAppSettingsKey("copyPassword") == "globalShortcutCopyPassword"
    ensures GlobalShortcutAppSettingsKey("copyUser") == "globalShortcutCopyUser"
    ensures GlobalShortcutAppSettingsKey("copyUrl") == "globalShortcutCopyUrl"
    ensures GlobalShortcutAppSettingsKey("autoType") == "globalShortcutAutoType"
  {
    CopyPasswordSettingsKey();
    CopyUserSettingsKey();
    CopyUrlSettingsKey();
    AutoTypeSettingsKey();
  }

  /** The built-in actions use pairwise different settings keys. */
  lemma DefaultSettingsKeysDistinct(a: string, b: string)
    requires a in Defaults && b in Defaults && a != b
    ensures GlobalShortcutAppSettingsKey(a) != GlobalShortcutAppSettingsKey(b)
  {
    if GlobalShortcutAppSettingsKey(a) == GlobalShortcutAppSettingsKey(b) {
      SettingsKeyDeterminesType(a, b);
    }
  }

  /** The stored override of an action, when it is truthy (a non-empty string). */
  function StoredOverride(settings: Settings, actionType: string): Option<string> {
    var key := GlobalShortcutAppSettingsKey(actionType);
    if key in settings && settings[key] != "" then Some(settings[key]) else None
  }

  /** The built-in default of a known action on this platform. */
  function PlatformDefault(p: Platform, actionType: string): string
    requires actionType in Defaults
  {
    var d := Defaults[actionType];
    if p.isMac && d.mac != "" then d.mac else d.all
  }

  /** `globalShortcut(type)`: the override, else the platform default, else nothing. */
  function GlobalShortcut(p: Platform, settings: Settings, actionType: string): (r: Option<string>)
    ensures StoredOverride(settings, actionType).Some? ==> r == StoredOverride(settings, actionType)
    ensures StoredOverride(settings, actionType).None? && actionType in Defaults ==>
              r == Some(if p.isMac then Defaults[actionType].mac else Defaults[actionType].all)
    ensures r.None? <==> StoredOverride(settings, actionType).None? && actionType !in Defaults
  {
    match StoredOverride(settings, actionType)
    case Some(v) => Some(v)
    case None => if actionType in Defaults then Some(PlatformDefault(p, actionType)) else None
  }

  /** The Mac and non-Mac defaults of copyPassword. */
  lemma DefaultExamples(s: Settings)
    requires "globalShortcutCopyPassword" !in s
    ensures GlobalShortcut(Platform(true, false, false, false), s, "copyPassword") == Some("Ctrl+Alt+C")
    ensures GlobalShortcut(Platform(false, true, false, false), s, "copyPassword") == Some("Shift+Alt+C")
  {
    DefaultSettingsKeys();
  }

  /** `after` is `before` with the override under `key` written (non-empty
      `value`) or removed (empty `value`), and every other key as it was. */
  ghost predicate OverrideApplied(before: Settings, after: Settings, key: string, value: string) {
    && (key in after <==> value != "")
    && (value != "" ==> after[key] == value)
    && (forall k :: k != key ==> (k in after <==> k in before))
    && (forall k :: k != key && k in before ==> after[k] == before[k])
  }

  /** The `set` or `unset` in `setGlobalShortcut`: write or remove the override of an accepted type. */
  function UpdatedSettings(settings: Settings, actionType: string, value: string): (r: Settings)
    ensures OverrideApplied(settings, r, GlobalShortcutAppSettingsKey(actionType), value)
  {
    var key := GlobalShortcutAppSettingsKey(actionType);
    if value != "" then settings[key := value] else settings - {key}
  }

  /** Why `setGlobalShortcut` threw. `LauncherMissing` carries the settings as
      the `set` or `unset` left them: the store is already changed when
      `Launcher.setGlobalShortcuts` dereferences a falsy `Launcher` (the web build has no launcher). */
  datatype SetError = BadShortcut(message: string) | LauncherMissing(settings: Settings)

  /** `setGlobalShortcut` once the type is accepted: change the store, then hand the
      whole snapshot to the registrar, which throws when there is no launcher. */
  function ApplyOverride(st: AppState, actionType: string, value: string, hasLauncher: bool): Result<AppState, SetError> {
    var settings := UpdatedSettings(st.settings, actionType, value);
    if hasLauncher then Success(AppState(settings, st.registrarLog + [settings]))
    else Failure(LauncherMissing(settings))
  }

  /** The settings store after a call, whether it returned or threw. */
  function SettingsAfter(st: AppState, r: Result<AppState, SetError>): Settings {
    match r
    case Success(next) => next.settings
    case Failure(LauncherMissing(settings)) => settings
    case Failure(BadShortcut(_)) => st.settings
  }

  /** `setGlobalShortcut(type, value)`, with the type check `!globalShortcuts[type]` accepting
      exactly the built-in action types. An empty `value` stands for every
      falsy value; `hasLauncher` says whether `Launcher` is truthy. */
  function SetGlobalShortcut(st: AppState, actionType: string, value: string, hasLauncher: bool): (r: Result<AppState, SetError>)
    ensures r.Failure? && r.error.BadShortcut? <==> actionType !in Defaults
    ensures actionType !in Defaults ==> r == Failure(BadShortcut("Bad shortcut: " + actionType))
    ensures r.Success? <==> actionType in Defaults && hasLauncher
    ensures actionType in Defaults ==>
              OverrideApplied(st.settings, SettingsAfter(st, r), GlobalShortcutAppSettingsKey(actionType), value)
    ensures r.Success? ==> r.value.registrarLog == st.registrarLog + [r.value.settings]
  {
    if actionType !in Defaults then Failure(BadShortcut("Bad shortcut: " + actionType))
    else ApplyOverride(st, actionType, value, hasLauncher)
  }

  /** The names a plain JavaScript object inherits from `Object.prototype`.
      Looking one of them up in `globalShortcuts` yields a truthy value
      (a function, or the prototype itself for `__proto__`). */
  const ObjectPrototypeNames: set<string> := {
    "constructor", "hasOwnProperty", "isPrototypeOf", "propertyIsEnumerable",
    "toString", "toLocaleString", "valueOf", "__proto__",
    "__defineGetter__", "__defineSetter__", "__lookupGetter__", "__lookupSetter__"
  }

  /** The check `!globalShortcuts[type]` as written: `globalShortcuts[type]` is truthy for
      an own property and for every inherited one. */
  predicate PassesTypeCheckAsWritten(actionType: string) {
    actionType in Defaults || actionType in ObjectPrototypeNames
  }

  /** `setGlobalShortcut` exactly as written, inherited names included. */
  function SetGlobalShortcutAsWritten(st: AppState, actionType: string, value: string, hasLauncher: bool): (r: Result<AppState, SetError>)
    ensures r.Failure? && r.error.BadShortcut? <==> !PassesTypeCheckAsWritten(actionType)
    ensures r.Success? <==> PassesTypeCheckAsWritten(actionType) && hasLauncher
    ensures PassesTypeCheckAsWritten(actionType) ==>
              OverrideApplied(st.settings, SettingsAfter(st, r), GlobalShortcutAppSettingsKey(actionType), value)
    ensures r.Success? ==> r.value.registrarLog == st.registrarLog + [r.value.settings]
  {
    if !PassesTypeCheckAsWritten(actionType) then Failure(BadShortcut("Bad shortcut: " + actionType))
    else ApplyOverride(st, actionType, value, hasLauncher)
  }

  /** On the built-in action types the code as written and the corrected
      check behave identically; they differ only on inherited names. */
  lemma AsWrittenAgreesOnBuiltIns(st: AppState, actionType: string, value: string, hasLauncher: bool)
    ensures actionType in Defaults || actionType !in ObjectPrototypeNames ==>
              SetGlobalShortcutAsWritten(st, actionType, value, hasLauncher)
              == SetGlobalShortcut(st, actionType, value, hasLauncher)
  {
  }

  /** The guard as written lets `constructor` through: no such action exists,
      yet the call succeeds and stores an override under
      `globalShortcutConstructor`. The corrected `SetGlobalShortcut` rejects it. */
  lemma InheritedNamePassesTypeCheck(st: AppState)
    ensures "constructor" !in Defaults
    ensures SetGlobalShortcutAsWritten(st, "constructor", "Ctrl+A", true).Success?
    ensures "globalShortcutConstructor" in SetGlobalShortcutAsWritten(st, "constructor", "Ctrl+A", true).value.settings
    ensures SetGlobalShortcut(st, "constructor", "Ctrl+A", true) == Failure(BadShortcut("Bad shortcut: constructor"))
  {
    assert GlobalShortcutAppSettingsKey("constructor") == "globalShortcutConstructor" by {
      assert UpperAscii('c') == 'C';
      assert CapFirst("constructor") == ['C'] + "constructor"[1..];
      assert "constructor"[1..] == "onstructor";
    }
    assert "Bad shortcut: " + "constructor" == "Bad shortcut: constructor";
  }

  /** After setting a non-empty value, the action resolves to exactly that
      value, also when the call then threw for want of a launcher. */
  lemma ResolveAfterSet(p: Platform, st: AppState, actionType: string, value: string, hasLauncher: bool)
    requires actionType in Defaults && value != ""
    ensures GlobalShortcut(p, SettingsAfter(st, SetGlobalShortcut(st, actionType, value, hasLauncher)), actionType)
            == Some(value)
  {
  }

  /** After clearing, the action resolves to its platform default, whatever
      override it had. */
  lemma ResolveAfterUnset(p: Platform, st: AppState, actionType: string, hasLauncher: bool)
    requires actionType in Defaults
    ensures GlobalShortcut(p, SettingsAfter(st, SetGlobalShortcut(st, actionType, "", hasLauncher)), actionType)
            == GlobalShortcut(p, map[], actionType)
  {
  }

  /** Changing one action's shortcut leaves the resolution of every other
      built-in action as it was. */
  lemma SetLeavesOtherActions(p: Platform, st: AppState, actionType: string, value: string, hasLauncher: bool, other: string)
    requires actionType in Defaults && other in Defaults && other != actionType
    ensures GlobalShortcut(p, SettingsAfter(st, SetGlobalShortcut(st, actionType, value, hasLauncher)), other)
            == GlobalShortcut(p, st.settings, other)
  {
    DefaultSettingsKeysDistinct(actionType, other);
  }

  /** `globalShortcutText(type, formatting)`: presentation of the resolved
      shortcut; with nothing resolved, `undefined.split` throws. */
  function GlobalShortcutText(p: Platform, settings: Settings, actionType: string, formatting: bool): (r: Result<string, string>)
    ensures r.Failure? <==> StoredOverride(settings, actionType).None? && actionType !in Defaults
    ensures StoredOverride(settings, actionType).Some? ==>
              r == Success(PresentShortcut(p, StoredOverride(settings, actionType).value, formatting))
    ensures StoredOverride(settings, actionType).None? && actionType in Defaults ==>
              r == Success(PresentShortcut(p, PlatformDefault(p, actionType), formatting))
  {
    match GlobalShortcut(p, settings, actionType)
    case Some(s) => Success(PresentShortcut(p, s, formatting))
    case None => Failure("TypeError")
  }

  // ---------------------------------------------------------------------------
  // Screenshot hint (`screenshotToClipboardShortcut`)
  // ---------------------------------------------------------------------------

  /** `screenshotToClipboardShortcut()`: iOS, then other mobile, then Mac, then Windows. */
  function ScreenshotToClipboardShortcut(p: Platform): (r: string)
    ensures r == "Sleep+Home" <==> p.isiOS
    ensures r == "Command-Shift-Control-4" <==> !p.isiOS && !p.isMobile && p.isMac
    ensures r == "Alt+PrintScreen" <==> !p.isiOS && !p.isMobile && !p.isMac && p.isWindows
    ensures r == "" <==> !p.isiOS && (p.isMobile || (!p.isMac && !p.isWindows))
  {
    if p.isiOS then "Sleep+Home"
    else if p.isMobile then ""
    else if p.isMac then "Command-Shift-Control-4"
    else if p.isWindows then "Alt+PrintScreen"
    else ""
  }
}
