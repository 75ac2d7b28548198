# KeeWeb keyboard shortcuts and OAuth URL arguments, in Dafny

This project models two pieces of string logic from the KeeWeb password manager.

1. **The keyboard-shortcut subsystem** (`app/scripts/comp/shortcuts.js`):
   - the table of key codes a shortcut may end in, built once and cached;
   - translating a key press (modifier flags plus key code) into the canonical
     `Ctrl+Alt+Shift+Meta+Key` string and a validity flag;
   - rendering such a string as Mac glyphs or as plain or HTML text;
   - resolving the global shortcut of an action (user override, then the
     platform default, then nothing);
   - changing an override in the settings store and pushing the whole store
     to the OS hotkey registrar;
   - the platform's screenshot-to-clipboard hint.
2. **The OAuth return-URL parser** `urlArgsToMessage`
   (`app/scripts/comp/auth-receiver.js`), and the "has a key other than
   `config`" test that `receive` applies to its result.

Everything is pure. The platform facts are a `Platform` record. The host's
key-code enumeration is an ordered list of (name, code) entries. The settings
store is a `map<string, string>`. The registrar is a log of the snapshots it
was handed.

Files:
- `wrappers.dfy`: `Option` (a value that may be `undefined`) and `Result` (a call that may throw).
- `text.dfy`: JavaScript's `split` on a character class, `join`, and `replace` with a string pattern and a replacement holding no `$`, with round-trip lemmas.
- `key_table.dfy`: `getAllowedKeys` and its cache.
- `shortcuts.dfy`: the rest of `shortcuts.js`.
- `auth_receiver.dfy`: `urlArgsToMessage` and the "has a key other than `config`" test of `receive`.

Behaviour the model keeps from the code:
- `name.replace('DOM_VK_', '')` removes the FIRST occurrence of `DOM_VK_`, wherever it is, not only a prefix.
- The key pattern `^([0-9A-Z]|F\d{1,2})$` admits `F0` to `F99`, including `F05`. This is wider than the function keys F1–F24 that exist; the model follows the code.
- When two enumeration entries share a code, the later entry whose name passes the pattern wins.
- A modifier-less key press yields a string starting with `+`.
- An override that is stored but empty counts as no override.
- `globalShortcutText` throws when nothing is bound, because it calls `split` on `undefined`.
- `setGlobalShortcut` changes the settings store before it calls `Launcher.setGlobalShortcuts`. Where `Launcher` is falsy (the web build), that call throws after the store has already changed. The model returns the changed settings inside the `LauncherMissing` error.
- In `urlArgsToMessage`, assigning a string to `message['__proto__']` creates no key. So `__proto__` never appears in a message.

## Model

| member | source | states |
|---|---|---|
| `Text.ReplaceFirst` | app/scripts/comp/shortcuts.js:13 | A name starting with the pattern loses exactly that prefix. A name not containing the pattern is returned unchanged |
| `Text.ReplaceFirstSpec` | app/scripts/comp/shortcuts.js:13 | Wherever the first occurrence of the pattern is, exactly that occurrence is replaced; the text before and after it is kept |
| `KeyTable.KeyNameOfSpec` | app/scripts/comp/shortcuts.js:13 | A name starting with `DOM_VK_` loses that prefix. A name holding `DOM_VK_` anywhere shrinks by exactly its length. A name without it is kept whole |
| `KeyTable.KeyNameOfPrefixed` | app/scripts/comp/shortcuts.js:13 | `DOM_VK_x` contributes the candidate key name `x` |
| `KeyTable.KeyNameLanguage` | app/scripts/comp/shortcuts.js:14 | The key-name test accepts exactly the strings of the pattern's three alternatives: one digit or capital letter, `F` and one digit, `F` and two digits |
| `KeyTable.KeyNameExamples` | app/scripts/comp/shortcuts.js:14 | The pattern admits digits, capitals and F1–F24, also `F0`, `F05` and `F99`; it rejects lower case, the empty name, `F100`, `ENTER` and `FA` |
| `KeyTable.BuildAllowedKeys` | app/scripts/comp/shortcuts.js:11-17 | Every value of the built table matches the key-name pattern |
| `KeyTable.AllowedKeysDomain` | app/scripts/comp/shortcuts.js:12-17 | A code is in the table iff some enumeration entry with that code has a name that, with `DOM_VK_` removed, matches the pattern |
| `KeyTable.AllowedKeysLastWins` | app/scripts/comp/shortcuts.js:12-17 | A code maps to the key name of the LAST entry admitting it |
| `KeyTable.GetAllowedKeys` | app/scripts/comp/shortcuts.js:7-20 | After a call the cache is filled with the returned table; a filled cache is returned as is; a coherent cache yields the table of the enumeration and stays coherent |
| `KeyTable.GetAllowedKeysIsMemoised` | app/scripts/comp/shortcuts.js:9-19 | A second call returns the first call's table unchanged, even when given a different enumeration |
| `Shortcuts.Modifiers` | app/scripts/comp/shortcuts.js:31-43 | Modifiers come in strictly increasing canonical rank (Ctrl, Alt, Shift, Meta), so each appears at most once; each appears iff its flag is set; Meta appears iff the platform is Mac and `metaKey` is set |
| `Shortcuts.KeyEventToShortcut` | app/scripts/comp/shortcuts.js:44-48 | `valid` iff some modifier was collected and the code has a key name; the value starts with `+` iff no modifier was collected |
| `Shortcuts.TranslationTokens` | app/scripts/comp/shortcuts.js:44-46 | Splitting the value at `+` gives back the modifiers in order, then the key name or `…`. With no modifier the modifiers are replaced by one empty token |
| `Shortcuts.TranslateKeyEvent` | app/scripts/comp/shortcuts.js:44 | Through the cache, translation uses the table of the enumeration and leaves the cache filled and coherent |
| `Shortcuts.TranslateExample` | app/scripts/comp/shortcuts.js:30-48 | Ctrl+Alt with code 67 (`C`) off a Mac gives the valid string `Ctrl+Alt+C` |
| `Shortcuts.ActionShortcutSymbol` | app/scripts/comp/shortcuts.js:69-71 | Meta is shown as `⌘` on a Mac; elsewhere as `ctrl` in a thin span or as `ctrl+`, exactly like Ctrl |
| `Shortcuts.AltShortcutSymbol` | app/scripts/comp/shortcuts.js:72-74 | Alt is shown as `⌥` on a Mac; elsewhere as `alt` in a thin span or as `alt+` |
| `Shortcuts.ShiftShortcutSymbol` | app/scripts/comp/shortcuts.js:75-77 | Shift is shown as `⇧` on a Mac; elsewhere as `shift` in a thin span or as `shift+` |
| `Shortcuts.CtrlShortcutSymbol` | app/scripts/comp/shortcuts.js:78-80 | Ctrl is shown as `⌃` on a Mac; elsewhere as `ctrl` in a thin span or as `ctrl+` |
| `Shortcuts.SymbolChoice` | app/scripts/comp/shortcuts.js:69-80 | On a Mac each modifier renders as its one-character glyph, whatever the formatting flag. Elsewhere it renders as its word in a thin span when formatting, or as the word and `+` when not. Meta and Ctrl share their non-Mac text |
| `Shortcuts.PresentShortcut` | app/scripts/comp/shortcuts.js:50-68 | On a Mac the presentation holds no `+` at all. A single token that is not a modifier name is shown verbatim |
| `Shortcuts.PresentAroundPlus` | app/scripts/comp/shortcuts.js:50-68 | Presenting `a+b` equals presenting `a` followed by presenting `b`: tokens are rendered one by one and joined with no separator |
| `Shortcuts.PresentPassesThrough` | app/scripts/comp/shortcuts.js:53-67 | When no token is a modifier name, the result is the input with its `+` separators removed: other tokens pass through verbatim |
| `Shortcuts.PresentOfTranslation` | app/scripts/comp/shortcuts.js:44-68 | Presenting a translated key press gives the rendered modifiers followed by the key name or `…`, verbatim, at the end |
| `Shortcuts.PresentExamples` | app/scripts/comp/shortcuts.js:50-80 | `Shift+Alt+C` renders as `⇧⌥C` on a Mac, as two thin spans then `C` when formatted elsewhere, and as `shift+alt+C` when not formatted elsewhere |
| `Shortcuts.GlobalShortcutAppSettingsKey` | app/scripts/comp/shortcuts.js:111-113 | The key is `globalShortcut` followed by a text as long as the type |
| `Shortcuts.SettingsKeySpelling` | app/scripts/comp/shortcuts.js:111-113 | After `globalShortcut` comes the type's first character upper-cased, then the rest of the type unchanged; the empty type gives `globalShortcut` itself |
| `Shortcuts.SettingsKeyDeterminesType` | app/scripts/comp/shortcuts.js:111-113 | Two types share a settings key only if they differ at most in the case of their first letter |
| `Shortcuts.DefaultSettingsKeys` | app/scripts/comp/shortcuts.js:22-27 | The four built-in actions store their overrides under `globalShortcutCopyPassword`, `…CopyUser`, `…CopyUrl` and `…AutoType` |
| `Shortcuts.DefaultSettingsKeysDistinct` | app/scripts/comp/shortcuts.js:22-27 | Different built-in actions use different settings keys |
| `Shortcuts.GlobalShortcut` | app/scripts/comp/shortcuts.js:84-99 | A truthy stored override is returned verbatim. Otherwise a known type gives its Mac default on a Mac and its `all` default elsewhere. The result is undefined iff there is no override and the type is unknown |
| `Shortcuts.DefaultExamples` | app/scripts/comp/shortcuts.js:22-27 | With no override, copyPassword resolves to `Ctrl+Alt+C` on a Mac and to `Shift+Alt+C` elsewhere |
| `Shortcuts.UpdatedSettings` | app/scripts/comp/shortcuts.js:104-108 | The override key is present iff the value is non-empty and then holds it; every other key keeps its presence and value |
| `Shortcuts.SetGlobalShortcut` | app/scripts/comp/shortcuts.js:100-110 | Throws `Bad shortcut: <type>`, leaving the store alone, iff the type is not a built-in action. Succeeds iff the type is built in and the launcher exists. For a built-in type the store is updated as above, also when the missing launcher then makes the call throw. On success the new snapshot is appended to the registrar log |
| `Shortcuts.ResolveAfterSet` | app/scripts/comp/shortcuts.js:104-105 | After setting a non-empty value, the action resolves to exactly that value, with or without a launcher |
| `Shortcuts.ResolveAfterUnset` | app/scripts/comp/shortcuts.js:106-107 | After setting the empty value, the action resolves to what it resolves to with no overrides at all, its platform default, with or without a launcher |
| `Shortcuts.SetLeavesOtherActions` | app/scripts/comp/shortcuts.js:104-108 | Setting one action leaves the resolution of every other built-in action unchanged, with or without a launcher |
| `Shortcuts.GlobalShortcutText` | app/scripts/comp/shortcuts.js:81-83 | Throws iff there is no truthy override and the type is not built in. Otherwise it presents the override when there is one, else the platform default (the Mac string on a Mac when it exists, else `all`) |
| `Shortcuts.SetGlobalShortcutAsWritten` | app/scripts/comp/shortcuts.js:100-110 | The type check as written rejects exactly the names that are neither built-in actions nor inherited object properties. Past the check it updates the store and needs the launcher, like the corrected version |
| `Shortcuts.AsWrittenAgreesOnBuiltIns` | app/scripts/comp/shortcuts.js:100-110 | On built-in action types, and on every name that is not an inherited property, the code as written and the corrected check give the same outcome |
| `Shortcuts.InheritedNamePassesTypeCheck` | app/scripts/comp/shortcuts.js:101-102 | `constructor` is no action, yet the as-written check lets it through and an override is stored under `globalShortcutConstructor`. The corrected check rejects it |
| `Shortcuts.ScreenshotToClipboardShortcut` | app/scripts/comp/shortcuts.js:114-128 | Each hint is characterised both ways by the priority order: `Sleep+Home` iff iOS. `Command-Shift-Control-4` iff Mac and neither iOS nor mobile. `Alt+PrintScreen` iff Windows and none of the others. Empty iff not iOS and either mobile or neither Mac nor Windows |
| `AuthReceiver.Fragments` | app/scripts/comp/auth-receiver.js:29 | The URL is cut into one more fragment than it has `?`, `#` and `&` characters. No fragment holds one. Together the fragments spell the URL without them |
| `AuthReceiver.FragmentsSpec` | app/scripts/comp/auth-receiver.js:29 | Each separator ends one fragment and starts the next: the fragments of `a`, separator, `b` are those of `a` followed by those of `b`. A URL without separators is a single fragment |
| `AuthReceiver.Entry` | app/scripts/comp/auth-receiver.js:30-32 | A fragment gives an entry iff it holds exactly one `=`. The fragment is then key, `=`, value, verbatim, with neither side holding `=` |
| `AuthReceiver.EntryOfPair` | app/scripts/comp/auth-receiver.js:30-32 | `k=v` with `=`-free sides gives the entry (k, v), empty sides included |
| `AuthReceiver.UrlArgsToMessage` | app/scripts/comp/auth-receiver.js:27-36 | A key is in the message iff some fragment carries it on its left and it is not `__proto__`. Its value is the right side of the last fragment carrying it |
| `AuthReceiver.NoEqualsSignNoMessage` | app/scripts/comp/auth-receiver.js:28-35 | A URL without `=` yields the empty message |
| `AuthReceiver.UrlArgsExample` | app/scripts/comp/auth-receiver.js:27-36 | `?a=1&=x#a=2&b` gives `{a: 2, "": x}`: the empty key is kept, a bare fragment is ignored, and the later `a` wins |
| `AuthReceiver.HasKeysOtherThanConfig` | app/scripts/comp/auth-receiver.js:11 | True iff the message has a key other than `config` |
| `AuthReceiver.UrlHasKeysOtherThanConfig` | app/scripts/comp/auth-receiver.js:10-11 | For a URL, the test holds iff some fragment with one `=` has a key other than `config` and `__proto__` |

## Findings

| source | as written | input that shows it | evidently intended | confidence | as-written member | corrected member |
|---|---|---|---|---|---|---|
| app/scripts/comp/shortcuts.js:101-102 | `!globalShortcuts[type]` looks the type up on a plain object. Inherited names such as `constructor`, `toString` or `__proto__` give a truthy value, so no error is thrown | `setGlobalShortcut('constructor', 'Ctrl+A')` in the desktop app (launcher present) stores `globalShortcutConstructor` and pushes it to the registrar | Only the four built-in action types are accepted; any other type throws `Bad shortcut` and the store is left alone | high (standard JavaScript property lookup); not executed | `Shortcuts.SetGlobalShortcutAsWritten`, shown by `Shortcuts.InheritedNamePassesTypeCheck` | `Shortcuts.SetGlobalShortcut` |

For resolution the same lookup is harmless. An inherited value has no `mac` or
`all` property, so `globalShortcut` returns `undefined` as it does for an
unknown type. The model's `GlobalShortcut` reflects this.

## Left out

- `app/scripts/comp/focus-detector.js`: window focus and blur listeners, Backbone events and a launcher call. It is event plumbing with no logic beyond a boolean.
- `AuthReceiver.receive`, apart from its "has a key other than `config`" test. It uses `window.opener`, `postMessage`, `window.close`, `sessionStorage` and the storage providers, all of which are browser I/O.
- The OS hotkey registrar (`Launcher.setGlobalShortcuts`). It is modelled only as appending the snapshot it receives to `registrarLog`.
- The key-code enumeration `../const/keys` is not part of this model. It is an input list of (name, code) entries in `Object.entries` order.
- Platform detection (`../util/features`) is not part of this model. It is the `Platform` record of four booleans.
- `AppSettingsModel` persistence is not part of this model. The store is a `map<string, string>`, so settings holding non-string values are not represented.
- Shortcuts.GlobalShortcutAppSettingsKey: `StringFormat.capFirst` is not part of this model. It is assumed to upper-case the first character and keep the rest, and only ASCII `a`–`z` are upper-cased. The action types are ASCII identifiers.
- Shortcuts.SetGlobalShortcut: the falsy values `undefined`, `null` and `''` are all represented by the empty string.
- AuthReceiver.UrlArgsToMessage: the message is a map, so the insertion order of `Object.keys` is not modelled. The test in `receive` only counts keys.
- Text.ReplaceFirst: the `$&`, `$$`, `` $` `` and `$'` patterns that `replace` expands in a string replacement are not modelled; the replacement is inserted as is. The only call passes the empty replacement.
- Key codes and `event.which` are integers. The conversion of codes to property-name strings in `allowedKeys[code]` is not modelled, because numeric property names round-trip.
