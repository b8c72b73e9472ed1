# slack_markov: a verified model of the Markov text generator

slack_markov reads a Slack channel export and keeps the messages of one
user. It concatenates their texts, putting the marker `<end/>` after each
one. It then trains a word-level Markov chain on the result and generates
a new post. This project models, in Dafny, the chain and the glue around it:

- **Strings** (`strings.dfy`): `strings.Join(words, " ")` (`Prefix.String`),
  `strings.Split(s, " ")`, `strings.Contains` and the deletion of every
  literal match that `regexp.ReplaceAllString` performs for the pattern
  `<end/>`.
- **ChainTable** (`table.dfy`): the prefix-to-suffix table described as a
  value. The window before each token holds the last `prefixLen` tokens,
  padded in front with empty words. `BuildTable` is the table Build
  leaves behind. `Followers` and `Occurrences` are independent reference
  definitions; the lemmas tie the table to them.
- **Generation** (`walk.dfy`): the keys that may start a text, the random
  walk as a function of an oracle of draws (`Walk`), and the final text
  (`Render`).
- **Markov** (`markov.dfy`): `Prefix.Shift` as an in-place method on an
  array, and `Chain` as a class with a `map<string, seq<string>>` field.
  Its methods Build and Generate are proved against the functions above.
  `Valid()` holds between calls: every key is the join of exactly
  `prefixLen` words, so Generate can always seed its window from a start key.
- **Slack** (`slack.dfy`): `checkUser`, the concatenation loop of
  `parseScrape` over decoded messages, and `buildPost` with the literal
  `<end/>` clean-up.

Each call `rand.Intn(k)` becomes a draw from an oracle: a natural number
taken modulo `k`. Generate draws its start key with `startPick` and its
i-th step with `picks[i]`. Go visits map keys in no fixed order. Here the
start-key loop picks its next key by `:|`, so the proofs hold for every
visiting order.

One might expect the marker clean-up to be idempotent. The code deletes
matches in one left-to-right pass, and that is not idempotent: deleting
the marker nested in `<en<end/>d/>` leaves a new `<end/>` behind. The
lemma `Slack.StripNotIdempotent` shows this. In single mode the generated
text has no marker left, so there the clean-up changes nothing
(`Slack.BuildPost`, via `Generation.SingleTextHasNoMarker`). Because the
marker has no space in it, the clean-up of a joined text works word by
word (`Strings.RemoveAllJoin`).

A stored token may itself be `[...]`. The text then looks the same as one
cut off after `n` steps, so only the word count tells the two apart
(`Generation.WalkShape`).

## Model

| member | source | states |
|---|---|---|
| Strings.Join | slack_markov.go:28-30 | Definition of `Prefix.String`: the words joined by single spaces. Its properties are stated by `Strings.Split` (round trip), `Strings.SplitJoin` and `Strings.JoinInjective`. |
| Strings.Contains | slack_markov.go:75 | Definition of `strings.Contains`: the pattern occurs at some offset. It is used by the start-key filter at :75 and the single-mode test at :95. |
| Strings.Split | slack_markov.go:81 | Splitting on single spaces gives at least one piece, no piece holds a space, and joining the pieces with spaces gives the string back. |
| Strings.SplitJoin | slack_markov.go:28-30 | Splitting a key made by `Prefix.String` from space-free words gives back exactly those words. |
| Strings.JoinInjective | slack_markov.go:28-30 | Two windows of space-free words have the same key if and only if they are the same window. |
| Strings.RemoveAll | slack_markov.go:143-146 | Definition of the one left-to-right pass that deletes every match. It never lengthens the text. |
| Strings.RemoveAllBounds | slack_markov.go:143-146 | A text without a match comes back unchanged. A text with a match loses at least one pattern's length. |
| Strings.RemoveAllAroundSpace | slack_markov.go:143-146 | For a non-empty pattern without spaces, deleting from `a + " " + b` is deleting from `a` and from `b` separately, with the space kept. |
| Strings.RemoveAllJoin | slack_markov.go:106 | Deleting such a pattern from words joined by spaces gives the same text as deleting it from each word and then joining. |
| Strings.JoinAvoids | slack_markov.go:106 | Joining words with spaces creates no marker that was not in one of the words. |
| ChainTable.Lookup | slack_markov.go:89 | Definition of reading `c.chain[key]` (also at :63): the stored list, or an empty list for a missing key. |
| ChainTable.Window | slack_markov.go:55-64 | Build's window `p` before each token: the last `prefixLen` tokens read, padded in front with empty words. It always has `prefixLen` words. |
| ChainTable.BuildTable | slack_markov.go:56-64 | Definition of the table Build leaves: each token is appended under the key of the window before it. `Markov.Chain.Build` is proved equal to it, and `BuildLookup`, `BuildKeys`, `FollowerCount` and `BuildTotal` relate it to independent definitions. |
| ChainTable.Record | slack_markov.go:63 | Appending to a key's list adds the key, extends that list by exactly the token, and leaves every other list unchanged. A missing key reads as an empty list. |
| ChainTable.Blanks | slack_markov.go:55 | The fresh window holds exactly `prefixLen` words, each of them empty, so it is space-free. |
| ChainTable.WindowShift | slack_markov.go:64 | Shifting the window by the token just read gives the window for the next token. |
| ChainTable.WindowIsLastTokens | slack_markov.go:55-64 | Once `prefixLen` tokens have been read, the window is exactly the last `prefixLen` tokens. |
| ChainTable.BuildLookup | slack_markov.go:56-64 | After Build, each key's list is its old list followed by the tokens that came right after that key's window, in stream order. Lists only grow by appending. |
| ChainTable.BuildKeys | slack_markov.go:56-64 | A key is in the table after Build if and only if it was there before or some token followed its window. |
| ChainTable.FollowedKeyShape | slack_markov.go:61-63 | Every key Build adds splits into exactly `prefixLen` words. |
| ChainTable.FollowerCount | slack_markov.go:61-63 | Under a window's key, a token occurs exactly as often as that window came right before it in the stream. These counts are the weights of the random choice. |
| ChainTable.TotalRecord | slack_markov.go:63 | Each append adds exactly one stored suffix to the table. |
| ChainTable.BuildTotal | slack_markov.go:56-64 | Build adds exactly as many stored suffixes as it read tokens. |
| Markov.Shift | slack_markov.go:33-36 | The window loses its first word and gains `word` at the end. Its length stays the same. |
| Markov.Chain.constructor | slack_markov.go:47-49 | NewChain gives an empty table with the given prefix length, and the class invariant holds. |
| Markov.Chain.Build | slack_markov.go:53-66 | Build keeps the invariant and leaves the table described by `BuildTable`. Every key's list is its old list plus its followers. The total stored grows by the token count. |
| Markov.Chain.PossiblePrefixes | slack_markov.go:74-78 | In any visiting order, the gathered keys are exactly the table's start keys. |
| Markov.Chain.Emit | slack_markov.go:85-105 | The generation loop produces the start key followed by the walk that `Walk` describes from the seeded window. |
| Markov.Chain.Generate | slack_markov.go:69-107 | Generate fails (where Go panics in `rand.Intn(0)`) exactly when no key can start a text. Otherwise the start key is one of the start keys, and the text is the rendered walk from that key's words. |
| Generation.IsStartKey | slack_markov.go:75 | Definition of the start-key filter: longer than six characters, beginning with `<end/>`, and no `<end/>` after character six. |
| Generation.StartKeys | slack_markov.go:74-78 | The set of table keys that pass the filter. `Markov.Chain.PossiblePrefixes` gathers exactly this set. |
| Generation.Walk | slack_markov.go:87-104 | Definition of the generation loop over an oracle of draws: look up the window, stop when there is no choice or, in single mode, the drawn word has a marker; otherwise emit the word (and `[...]` at step `n-1`) and shift. `Markov.Chain.Emit` is proved equal to it; `WalkShape`, `WalkFollows`, `WalkStops` and `WalkSingle` state its properties. |
| Generation.Render | slack_markov.go:106 | The text is the start key minus its first six characters, then, when words follow, a space and the space-joined walk. |
| Generation.WalkShape | slack_markov.go:87-104 | Either fewer than `n` words follow the seed, or exactly `n` words follow and the appended `[...]` is element `n + 1`. |
| Generation.WalkFollows | slack_markov.go:88-104 | Every generated word is a candidate stored under the key of the window formed by the words just before it. |
| Generation.WalkStops | slack_markov.go:88-98 | A walk that ends before `n` steps stops for one of two reasons. Either nothing follows the current window, or, in single mode, the drawn word contains `<end/>`. |
| Generation.WalkSingle | slack_markov.go:95-98 | In single mode no generated word contains `<end/>`. |
| Generation.SingleTextHasNoMarker | slack_markov.go:95-106 | In single mode the returned text contains no `<end/>` at all. |
| Slack.CheckUser | slack_markov.go:125-130 | With no user asked for, every message is accepted. Otherwise a message is accepted only when its user field is that user. |
| Slack.Chunk | slack_markov.go:114-119 | Definition of what one message adds: its text and ` <end/>` when checkUser accepts it and it has a text, and nothing otherwise. |
| Slack.Transcript | slack_markov.go:113-119 | Definition of the body the loop accumulates, message by message. `Slack.TranscriptIsMarkedSelection` relates it to an independent description. |
| Slack.Selected | slack_markov.go:113-114 | The messages checkUser accepts, in order. There are never more of them than messages. Each kept message passes checkUser, every message that passes is kept, and with no user given all messages are kept. |
| Slack.ParseScrape | slack_markov.go:109-123 | The accumulated body is the transcript of the messages, chunk by chunk in message order. |
| Slack.TranscriptSnoc | slack_markov.go:113-119 | One more message adds its own chunk at the end of the transcript. |
| Slack.TranscriptConcat | slack_markov.go:113-119 | The transcript of two runs of messages is the first run's transcript followed by the second's. |
| Slack.TranscriptIsMarkedSelection | slack_markov.go:113-119 | For every user, the transcript is the text of each accepted message that has one, in message order, each followed by ` <end/>`, with nothing in between. |
| Slack.TranscriptOfEveryone | slack_markov.go:113-127 | With no user given, the transcript marks every message's text in this way. |
| Slack.MarkerGluedToNextText | slack_markov.go:117-118 | No separator follows a marker, so the next text begins right after `<end/>`. |
| Slack.StripNotIdempotent | slack_markov.go:143-146 | One deletion pass can leave a marker behind, and a second pass removes it: the clean-up is not idempotent. |
| Slack.BuildPost | slack_markov.go:132-148 | buildPost fails exactly when the chain trained on the user's transcript has no start key. Otherwise the post is the generated text with every `<end/>` deleted, and in single mode it is the generated text unchanged. |

## Left out

- `main`, flag parsing, reading standard input and printing (slack_markov.go:150-168) are command-line plumbing. The flag values become parameters of `BuildPost`.
- `getId` reads `userslist.json`, and `fromJson` decodes through the jsonq library. Both are file I/O and foreign code, and `check` only panics (slack_markov.go:170-198). `parseScrape` is modelled over already decoded messages. The panics of its type assertions on malformed JSON are not modelled.
- The `bufio`/`fmt.Fscan` tokenizer in Build is not modelled. Build takes the token sequence directly. `BuildPost` takes the scanner as a function parameter, which is assumed to return space-free tokens.
- `math/rand` is replaced by an oracle of draws. The model claims nothing about probabilities or uniformity.
- The regular expression `<[^>]*>` used when `STRIP_TAGS` is set is not modelled. Only the literal `<end/>` deletion is.
- A prefix length below 1 makes the Go program panic later, and the constructor requires `prefixLen >= 1`. A negative length panics in `make` (slack_markov.go:55 and :70). A length of 0 panics in `Shift` (`p[1:]` of an empty slice, :34) as soon as Build reads a token. If the transcript has no tokens, Build never shifts, the table stays empty, and the panic comes from `rand.Intn(0)` at :80.
- Generate's `rand.Intn(0)` panic, when no start key exists, is modelled as the `NoStartKey` outcome rather than a crash.
- Strings are modelled as sequences of characters rather than UTF-8 bytes. The only fixed offset, the six characters of `<end/>`, is ASCII, so it is the same in both.
- `TotalSuffixes` counts the suffixes across the table as a ghost value. Go's map length and slice capacities are not modelled.
