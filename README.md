# Language Translator plugin for HexChat — a Dafny model of its core

The plugin (`src/lib.rs`) turns machine translation on per chat window of
the HexChat client. A window is identified by `(network, channel)`; a
process-wide map from that pair to `(source_lang, target_lang)` says
where translation is on. The plugin has five hooks, and all but
`/LISTLANG` use that map:

- `/SETLANG <src> <tgt>` resolves both languages against a fixed table of
  102 supported languages and turns translation on with their codes.
- `/OFFLANG` turns it off.
- `/LSAY` and `/LME` send a translated message or action.
- The receive hook re-emits incoming messages translated. It tags what it
  emits with a `"~"` sentinel so that it does not translate its own output.
- `/LISTLANG` prints the table three entries to a line.

The model has seven modules:

- `Wrappers`: `Option`, `Result`, and `Outcome`, which records whether a
  call returned or panicked.
- `Languages`: the table and `find_lang`. The lookup is a loop method
  proved against a recursive first-match specification.
- `Registry`: the context map as a class. Its field is the map, and
  `Activate`/`Deactivate` change it in place.
- `Translator`: the translator type and `google_translate_free`, which
  today returns its input.
- `Hexchat`: the values the hooks return (`Eat`), what the host answers
  (`Host`), and the host calls a hook makes (`Effect`).
- `Handlers` and `Listing`: the hooks.

The host API, threads and the translator are not executed. Their answers
are parameters:

- `get_info("network")` and `get_info("channel")` arrive as
  `Option<string>`.
- `strip` is a function parameter.
- Whether `find_context` still finds the window is a boolean.
- The translator is any function of type
  `(string, string, string) -> Result<string, ()>`.

The work each hook spawns on a thread is modelled as a plain sequential
computation. Its effects appear in the hook's `Reaction` in the order the
callback performs them.

Where the source panics, the model returns `Panicked(message)` and the
registry stays unchanged. This covers `expect` on a missing network or
channel name, `unwrap` on `word.last()`, and indexing past the end of
`word` or `word_eol`. No `requires` forbids these cases.

`src/lib.rs` has no sentence segmentation, no per-unit aggregation of
translation errors and no handling of HTTP 403 rate limits, so the model
has none either. Two behaviours of the code are kept as written:

- A missing network or channel name is not reported as an error:
  `activate` and `deactivate` `expect` the host's answers, and the model
  keeps that as a panic.
- `/SETLANG` refuses two words that resolve to the same table entry,
  which covers equal words and the same word in two cases.

## Model

| member | source | states |
|---|---|---|
| `Languages.SupportedLanguages` | src/lib.rs:479-514 | the 102 `(name, code)` pairs of the table, in the source's order |
| `Languages.LowerChar` | src/lib.rs:449 | one character of `to_lowercase`: an ASCII capital becomes its small letter, any other character is kept |
| `Languages.Lower` | src/lib.rs:449-451 | the model's lower-casing keeps the length and lower-cases each character in place |
| `Languages.FirstMatchFrom` | src/lib.rs:450-455 | the index found is the first matching entry at or after the start; None means no entry from there on matches |
| `Languages.LookupLang` | src/lib.rs:448-456 | `find_lang` returns a table entry whose lower-cased name equals the lower-cased input or whose code equals it, and no earlier entry matches. It returns None exactly when no entry matches |
| `Languages.ScanTable` | src/lib.rs:450-455 | the early-return loop returns exactly the index of the first matching entry, or None when no entry matches |
| `Languages.FindLang` | src/lib.rs:448-456 | lower-casing the input and scanning the table returns exactly the lookup's specified entry |
| `Languages.LowerIdempotent` | src/lib.rs:449-451 | lower-casing twice is lower-casing once |
| `Languages.LookupIgnoresCase` | src/lib.rs:449-451 | two spellings that agree up to case find the same entry, and the lower-cased input finds the same entry as the input |
| `Registry.CurrentKey` | src/lib.rs:119-120 | a key exists exactly when the host names both network and channel, and it is that pair |
| `Registry.ChannelRegistry.constructor` | src/lib.rs:57 | the registry starts with no context active |
| `Registry.ChannelRegistry.GetChannelLangs` | src/lib.rs:116-127 | None when the network or channel is unknown or the context has no entry; otherwise the stored pair. Being a function, it cannot change the map |
| `Registry.ChannelRegistry.Activate` | src/lib.rs:138-155 | with both names known, the context's entry becomes `(source, dest)`, replacing any old one, and a lookup returns that pair. Every other entry is kept. A missing name panics with the source's `expect` message and leaves the map unchanged |
| `Registry.ChannelRegistry.Deactivate` | src/lib.rs:162-171 | with both names known, the context's entry is removed and a lookup returns None. Every other entry is kept. A context without an entry leaves the map unchanged. A missing name panics and leaves the map unchanged |
| `Handlers.InsertKeepsInvariant` | src/lib.rs:148-152 | storing a pair `/SETLANG` can produce keeps every stored pair one that `/SETLANG` can produce |
| `Handlers.RemoveKeepsInvariant` | src/lib.rs:166-170 | removing an entry keeps every stored pair one that `/SETLANG` can produce |
| `Handlers.DecideSetLangAsWritten` | src/lib.rs:183-213 | the decision as the code is written: the usage line exactly for a word count other than three; activation only with two resolved, different entries; the notice only for two words resolving to the same entry; nothing printed exactly when a language is unknown |
| `Handlers.DecideSetLang` | src/lib.rs:183-213 | the corrected decision: the usage line exactly for a word count other than three; activation only with two resolved, different entries; every other case gets a reply |
| `Handlers.SetLangTurnsOnIff` | src/lib.rs:183-198 | under the corrected decision, which activates on the same inputs as the code as written, `/SETLANG` activates if and only if it gets exactly three words, both languages resolve, and the resolved entries differ. The activated entries are table entries matching the user's words |
| `Handlers.SetLangRejects` | src/lib.rs:183-213 | under the corrected decision, a wrong word count gets the usage line. Two equal entries, the same word in two cases, or an unknown language never activate and get the notice |
| `Handlers.UnknownLanguageGetsNoReply` | src/lib.rs:188-210 | the code as written activates exactly when the corrected decision does. With an unknown first language it prints nothing where the corrected decision prints the notice, and the two decisions differ only on an unknown language |
| `Handlers.SetLangStoresCodes` | src/lib.rs:193-198 | the pair `/SETLANG` stores is the codes of two different table entries, never the user's spelling |
| `Handlers.OnCmdSetLang` | src/lib.rs:177-215 | it makes the decision as the code is written. When the decision is to activate, the context's entry becomes the two table codes. Otherwise the registry is unchanged. It returns `Eat::All`, except that a missing host name during activation panics. It keeps the registry invariant |
| `Handlers.OnCmdOffLang` | src/lib.rs:220-233 | it deactivates only when given no argument; with arguments the registry is unchanged. It returns `Eat::All`, except for the panic of a missing host name. It keeps the registry invariant |
| `Translator.GoogleTranslateFree` | src/lib.rs:364-379 | for any text and any pair of languages it returns `Ok` of the text unchanged; the request URL it formats is never used |
| `Handlers.SayCommand.Verb` | src/lib.rs:59-60 | `/LSAY` runs `SAY` and `/LME` runs `ME`, and no other verb |
| `Handlers.TextToSend` | src/lib.rs:264-269 | the text sent is the translation when the translator succeeds, and the user's original message when it fails |
| `Handlers.OnCmdLSay` | src/lib.rs:239-284 | in an inactive context it returns `Eat::None` and does nothing. In an active one it returns `Eat::All` and runs `"{cmd} {msg}"`, where `msg` is the translated stripped message or the original message. With the window gone it prints "Failed to get context.". A missing `word_eol[1]` panics |
| `Handlers.LSayWithIdentityTranslator` | src/lib.rs:364-379 | with today's translator the command sends the stripped message unchanged |
| `Handlers.EmitArgs` | src/lib.rs:331-336 | the emitted arguments are the sender and the text, then the mode character exactly when it is non-empty, and the `"~"` sentinel last |
| `Handlers.OnRecvMessage` | src/lib.rs:290-346 | an inactive context gives `Eat::None` and no effect. In an active one, an empty `word` panics in `unwrap`, and a one-word event without the sentinel panics on `word[1]`. The hook consumes the event exactly when the context is active, there are at least two words and the last is not `"~"`. An event it lets through has no effect, and with the window gone it only prints "Failed to get context." |
| `Handlers.RecvGuard` | src/lib.rs:304-309 | in an inactive context, or for an event whose last word is `"~"`, the hook returns `Eat::None` and does nothing. The result does not depend on the translator |
| `Handlers.RecvEmits` | src/lib.rs:310-342 | for an event it takes, it emits the same event type with the sender, the translation (or the original text on failure), the optional mode character and `"~"`. It then prints the original text in colour 13, or the error notice |
| `Handlers.ReemittedEventIgnored` | src/lib.rs:305-336 | every event the hook emits, fed back into the hook with any registry, host and translator, returns `Eat::None` with no effect |
| `Handlers.RecvWithIdentityTranslator` | src/lib.rs:325-338 | with today's translator the emitted text is the stripped message, and the original line is printed after it |
| `Listing.Flatten` | src/lib.rs:422-429 | the rows show three entries each |
| `Listing.FlattenAt` | src/lib.rs:423-425 | row `r` shows entries `3r`, `3r+1` and `3r+2` |
| `Listing.GroupRows` | src/lib.rs:422-429 | the `step_by(3)` loop yields `|langs| / 3` rows that, read in order, are exactly the table |
| `Listing.TableSize` | src/lib.rs:479-514 | the table has 102 entries, a multiple of three |
| `Listing.OnCmdListLang` | src/lib.rs:410-435 | with no argument it lists every table entry once, in table order, in 34 rows. With arguments it lists nothing. It always returns `Eat::All` |

## Left out

- Every HexChat API call is out: hook registration, the event list, plugin init and deinit, `print`, `emit_print`, `command` and `find_context`. The hooks return these calls as `Effect` values instead. The host's answers are parameters.
- The `UserData` downcasts and their `expect` messages are out. They are library internals. The `SAY`/`ME` verb is a parameter.
- `strip(...).unwrap()` is out: `strip` is a total function parameter, so its failure is not modelled.
- The panic of indexing past the end of `word` or `word_eol` is modelled with a short message, not Rust's exact text.
- `thread::spawn` and `main_thread` are out. The deferred work runs in sequence. Interleavings with other hooks and stale in-flight translations are not modelled.
- The request URL and `urlparse::quote` are out. The URL is computed and never used. The commented-out request code is dead.
- The printed texts of `/SETLANG`, `/OFFLANG` and `/LISTLANG` are out, including help strings, usage lines and the `/LISTLANG` column format. `/SETLANG`'s answer is the kind of reply, and a `/LISTLANG` line is its triple of entries.
- `Languages.LowerChar`, `Languages.Lower`: lower-case only ASCII capitals. Rust's `to_lowercase` also folds non-ASCII letters, such as the Kelvin sign to `k`, so a non-ASCII spelling of a name can match in the source but not in the model. Rust's `to_lowercase` can also change the length of a string (`"İ"` becomes two characters); the model's lower-casing never does.
- `Listing.GroupRows`: requires a table length that is a multiple of three. The out-of-bounds panic for other lengths is not modelled, because the only table has 102 entries.
- `Handlers.SetLangStoresCodes`: states that the two stored codes belong to two different table entries, not that the codes differ. The table's codes are pairwise distinct, but that is not proved about the 102-entry constant.
- `Handlers.ReemittedEventIgnored`: assumes that the client hands the arguments of an emitted event back to the hook unchanged as `word`. The client's own delivery of events is not modelled.
- The lookup of a particular name, such as `find_lang("English")`, is not proved for the constant table.

## Findings

| source | as written | input that shows it | evidently intended | confidence | as-written member | corrected member |
|---|---|---|---|---|---|---|
| src/lib.rs:188-210 | The two `find_lang` checks are nested `if let`s without an `else`, so an unknown language prints nothing. Only two equal languages get "BAD LANGUAGE PARAMETERS. Use /LISTLANG …". | `/SETLANG Klingon en` | The notice for every failed check. Its own text, "Use /LISTLANG to get a list of supported languages", is advice for an unknown language, which is exactly the case that never reaches it. | medium, not executed | `Handlers.UnknownLanguageGetsNoReply` (about `Handlers.DecideSetLangAsWritten`) | `Handlers.SetLangRejects` (about `Handlers.DecideSetLang`; `Handlers.OnCmdSetLang` keeps the decision as written, and `Handlers.UnknownLanguageGetsNoReply` shows both activate on the same inputs) |
