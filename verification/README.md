# Task item resolver — Dafny model

This project models the core of the task-to-supplies service: the part of
`process_request` that runs once the language model has answered. It turns
the generated text into a task name and an ordered list of item names. Then
it resolves every item name against the inventory table `video` and returns
either the success envelope `{status, task_name, items}` or the error
envelope `{status: "error", message}`.

The endpoint exists in two versions, and both are modelled. A `Version`
value selects between them:

- `Current` is index.py. It strips every line before parsing and resolves
  names in tiers: the whole name first, then each word, or the first three
  letters of a single word. A missing column raises `KeyError`.
- `Legacy` is main.py. It parses the raw lines and falls back to
  "Untitled Task". It resolves on the whole name only and reads columns
  with an `"Unknown"` default.

Modules, in dependency order:

- `Wrappers`: `Option` and `Result`.
- `Seqs`: the first `true` in a sequence of flags. Used for the header search.
- `Text`: the Python `str` operations the code relies on, each with its
  characterisation. They are `strip()`, `lstrip(chars)`, `split(sep)`,
  `split()`, `lower()`, `startswith` and `in`. Whitespace is exactly the set
  `str.isspace` accepts.
- `Parser`: the response parser. It is stated over the prepared lines, and
  `Parse` composes it with line preparation.
- `Inventory`: the store as an immutable snapshot of rows. `Query(p)` is the
  in-order filter of rows whose lower-cased name contains `p` lower-cased,
  which abstracts `.ilike('name', f'%{p}%')`. A store can be given an
  outage: it answers the first `n` queries of a request and raises from
  then on.
- `Resolver`: per-name resolution, with a declarative partner.
  `FirstHit`, `Cost` and `HitRow` describe a lazy, in-order evaluation of
  the tier patterns. `ProbeReference` proves that the query-by-query probe
  equals that evaluation, including when the store fails part-way.
- `Pipeline`: the loop over all names and the response envelope.
- `Handler`: index.py's loop and main.py's loop written imperatively. They
  keep the `matched` flag and the last `response.data`, and each is proved
  equal to the functional model. In particular, index.py's final test
  `not matched and not response.data` always appends exactly one null entry
  when no tier appended one. Its second conjunct never decides anything,
  because whenever `matched` is false the last data is empty.
- `Scenarios`: concrete inputs, evaluated step by step.

Store failure is an explicit outcome rather than an exception. Three faults
can end a request:

- `Unavailable(message)`: the store raised.
- `MissingColumn(column)`: index.py's `KeyError` on a row without `quantity`
  or `units`.
- `NoWords`: index.py's `IndexError` from `words[0]` on a name with no words.

Each fault turns the whole response into the error envelope with
`str(e)` as the message, and no partial item list is returned. `NoWords` is
proved unreachable from parsed names (`Parser.ItemNamesHaveWords`).

One entry per parsed name holds only on success. A returned row without a
`quantity` or `units` key makes index.py raise `KeyError`, and then the
whole response becomes the error envelope whose message is the quoted key
(`Pipeline.MissingColumnMessage`). The
model follows the code (`Resolver.TakeColumns`,
`Pipeline.CurrentOkWhenComplete`).

## Model

| member | source | states |
|---|---|---|
| Text.Lower | index.py:91 | `lower()` keeps the length and maps each character on its own: each ASCII capital to its own small letter (code point + 32), everything else unchanged, whitespace stays whitespace |
| Text.IndexOf | index.py:58 | the leftmost occurrence of the label, if any; `None` exactly when it occurs nowhere |
| Text.ContainsIndexOf | index.py:91 | substring containment (`in`, and the `%p%` pattern) holds exactly when a leftmost occurrence exists |
| Text.Strip | index.py:55 | `strip()` leaves a slice of the input with no whitespace at either end, and everything cut off is whitespace |
| Text.StripKeepsFirst | index.py:69 | `strip()` keeps a first character that is not whitespace |
| Text.LStripChars | index.py:69 | `lstrip('*- ')` removes exactly the leading run of characters drawn from the set; the rest does not start with one |
| Text.Split | index.py:55 | `split(sep)` always yields at least one piece, and at least two when the string starts with the separator, so indexing `[1]` on a labelled line never fails |
| Text.SplitJoin | index.py:55 | splitting loses nothing: joining the pieces with the separator gives back the input |
| Text.SplitPartsFree | index.py:71 | no piece of `split(sep)` contains the separator |
| Text.SplitHead | index.py:71 | `split('(')[0]` is the prefix before the first `(`, or the whole line when there is none |
| Text.SplitSecond | index.py:58 | `split("Task Name:")[1]` on a labelled line is the text between the first and the second occurrence of the label, not everything after the first |
| Text.Token | index.py:103 | a word is the longest prefix of the text free of whitespace: a prefix, with no whitespace in it, followed by whitespace or the end of the text |
| Text.WordsAreWords | index.py:103 | every word `split()` yields is non-empty and free of whitespace |
| Text.WordsSkipSpace | index.py:103 | leading whitespace yields no word: `split()` of whitespace followed by `s` is `split()` of `s` |
| Text.WordsNext | index.py:103 | a word followed by whitespace (or by the end) is the first word and the words of the rest follow it; with `WordsSkipSpace` and the empty text this fixes `split()` as the maximal non-space runs, in order |
| Text.WordsEmpty | index.py:103 | `split()` yields no words exactly when the text is all whitespace |
| Seqs.FirstTrue | index.py:62-63 | the least index whose flag is set, or `None` exactly when none is set |
| Parser.PreparedPieces | index.py:55 | one line per piece of `split('\n')`, in order, none holding a newline; main.py's raw lines joined with newlines give back the text (main.py:101); each of index.py's lines is its piece with the whitespace around it cut off and none left at either end |
| Parser.LabelField | index.py:58 | the label field is a prefix of the text after the label, holds no label, and ends at the label's next occurrence |
| Parser.TaskLine | index.py:58-59 | the first line that starts with `Task Name:`; `None` exactly when no line does |
| Parser.HeaderLine | index.py:62-63 | the first line that passes the version's header test; `None` exactly when none does |
| Parser.ScanItems | index.py:67-75 | the cleaned lines in order, each non-empty, stopping at and excluding the first line that cleans to empty |
| Parser.TakeNonEmpty | index.py:72-75 | the leading run of non-empty strings, which ends at the first empty one |
| Parser.CleanShape | index.py:69-71 | a cleaned line holds no `(` and has no whitespace at either end |
| Parser.CleanFirstChar | index.py:69-71 | a cleaned line starts with `*` or `-` only when the text left by `lstrip('*- ')` starts with whitespace, which cannot be a space since `lstrip` removed those |
| Parser.TaskNameFromFirstLabel | index.py:58-59 | with the first labelled line at `i`, the task name is the stripped text after the label up to its next occurrence on that line |
| Parser.TaskNameFallback | main.py:104-107 | with no labelled line the task name is the fallback: the request name in index.py, "Untitled Task" in main.py |
| Parser.ItemsWithoutHeader | main.py:110-116 | with no header line the item list is empty |
| Parser.ItemsAfterHeader | index.py:62-67 | with the first header at `h`, the item names come from the lines strictly after `h` |
| Parser.ScanItemsFrom | index.py:67-75 | the items after the header, on the indices of the whole text: cleaned lines in order, stopping at the first that cleans to empty, with nothing after it |
| Parser.ScanItemsWellFormed | main.py:117-121 | every scanned item is non-empty, holds no `(` and has no whitespace at either end |
| Parser.ItemNamesWellFormed | index.py:65-75 | every extracted item name is non-empty, holds no `(` and has no whitespace at either end |
| Parser.ItemNamesHaveWords | index.py:103 | every extracted item name has at least one word, so `words[0]` is never taken of an empty list for a parsed name |
| Inventory.FirstMatchSpec | index.py:89-92 | the first matching row is the least index whose lower-cased name contains the lower-cased pattern |
| Inventory.Query | index.py:89-92 | a query returns no more rows than the snapshot holds; it is non-empty exactly when some row matches, and then its first row is the first matching row |
| Inventory.QueryMembers | index.py:89-92 | a query returns exactly the matching rows of the snapshot |
| Inventory.Ask | index.py:89-92 | a query raises with the store's message exactly when its number reaches the outage; otherwise it returns exactly the matching rows, non-empty exactly when some row matches, the first matching row first |
| Resolver.TakeColumns | index.py:95-99 | reading `['quantity']` and then `['units']` succeeds exactly when both columns are present, and then copies them next to the parsed name |
| Resolver.GetColumns | main.py:136-140 | `.get(column, "Unknown")` copies a present column and defaults an absent one to "Unknown"; the name is the parsed name |
| Resolver.Tiers | index.py:88-126 | the whole lower-cased name is queried first; after it come at most as many further patterns as the name has words |
| Resolver.Probe | index.py:88-134 | at most one query per pattern, at least one before a hit, exactly one per pattern when nothing is hit; a failure is the store's own (the order and the stop at the first query with rows are stated by `Resolver.ProbeReference`) |
| Resolver.ResolveTiered | index.py:85-138 | the entry carries the parsed name, and between 1 and 1 + (number of words) queries are issued for it |
| Resolver.ResolveSingle | main.py:132-142 | exactly one query, which fails exactly when the store fails; on a match the entry is `.get(…, "Unknown")` of the first matching row beside the parsed name, and on no match `{name, null, null}` |
| Resolver.Resolve | index.py:85-138 | every resolved entry carries the parsed name; main.py fails exactly when the store does not answer |
| Resolver.FirstHitSpec | index.py:103-119 | the first hit is the least pattern index whose query returns rows |
| Resolver.FirstHitAt | index.py:106-119 | a hit at `k` with misses before it is the first hit |
| Resolver.Cost | index.py:88-134 | a lazy evaluation issues between 1 and the number of patterns queries |
| Resolver.ProbeReference | index.py:88-134 | probing equals the lazy first-hit evaluation; the store's failure surfaces exactly when a query that evaluation needs is numbered at or past the outage |
| Resolver.ExactHit | index.py:88-100 | when the whole name matches, the first matching row supplies the entry after exactly one query |
| Resolver.WordHit | index.py:103-119 | for a name of several words, the first word in order whose query has rows supplies the entry; later words are never queried |
| Resolver.PrefixTier | index.py:120-134 | for a single word, the three-letter query is issued only when the word has at least three letters; a miss gives the null entry |
| Resolver.ProbeAllMiss | index.py:136-138 | when every pattern misses, all of them are queried and nothing is hit |
| Resolver.NoTierHits | index.py:136-138 | when no tier hits, the entry is `{name, null, null}` after one query per tier |
| Resolver.NoWordsFails | index.py:103-122 | a name with no words that matches nothing as a whole raises at `words[0]` |
| Resolver.ResolveIndependent | index.py:84-85 | on a healthy store a name's entry or fault does not depend on how many queries came before it |
| Resolver.Queries | index.py:85-138 | at least one query per name; at most 1 + (number of words) in index.py; exactly one in main.py |
| Resolver.ResolveOutage | index.py:145-146 | per name, all or nothing: either the store's failure, exactly when a needed query is at or past the outage, or the healthy result after `Queries` queries; main.py always succeeds on a healthy store, and index.py does when rows are complete and the name has a word |
| Pipeline.ResolveAll | index.py:84-138 | one entry per parsed name, in order, each carrying that name; at least one query per name, and exactly one in main.py |
| Pipeline.Process | index.py:140-146 | the success envelope carries the parsed task name and one entry per parsed item name, in order, with that name |
| Pipeline.ResolveAllEntries | index.py:84-138 | on a healthy store the batch succeeds exactly when every name resolves on its own, and the k-th entry is that of the k-th name resolved on its own |
| Pipeline.ResolveAllFirstFault | index.py:84-146 | on a healthy store a failing batch carries the fault of the first name that fails on its own, and every name before it resolves |
| Pipeline.ProcessHealthy | main.py:131-151 | on a healthy store the success envelope exactly when every parsed name resolves, its k-th entry that of the k-th parsed name; otherwise the error envelope with `str(e)` of the first failing name's fault |
| Pipeline.MissingColumnFault | index.py:94-99 | when the row that settles the first name lacks `quantity`, or has it but lacks `units`, the batch fails with that key |
| Pipeline.MissingColumnMessage | index.py:145-146 | the response is then the error envelope with message `'quantity'` or `'units'` |
| Pipeline.Spent | index.py:84-138 | the healthy run of a non-empty batch issues at least one query |
| Pipeline.ResolveAllOutage | index.py:145-146 | a store failure makes the whole batch fail, with no partial items, exactly when a query the healthy run needs is at or past the outage; otherwise the batch is the healthy one |
| Pipeline.ProcessOutage | main.py:150-151 | an outage either yields the error envelope with the store's message, or leaves the response as on a healthy store |
| Pipeline.LegacyResolvesAll | main.py:131-142 | on a healthy store main.py resolves every name |
| Pipeline.LegacyAlwaysOk | main.py:131-148 | on a healthy store main.py always answers with the success envelope |
| Pipeline.CurrentResolvesAll | index.py:84-138 | on a healthy store with complete rows index.py resolves every name that has a word |
| Pipeline.CurrentOkWhenComplete | index.py:84-144 | on a healthy store with complete rows index.py always answers with the success envelope |
| Handler.WordTierSteps | index.py:104-119 | the word loop, query by query, agrees with the lazy probe of the words, and `matched` is false only when the last data is empty |
| Handler.PrefixTierSteps | index.py:120-134 | the three-letter branch agrees with the lazy probe of its single pattern, or of none for a short word |
| Handler.ResolveNameSteps | index.py:85-138 | the loop body as written, with `matched`, `response.data` and the final test, appends exactly the entry the functional resolver gives, or fails with its fault |
| Handler.ExtendStep | index.py:84-85 | resolving the rest of the batch is resolving its first name and then the others after one more entry |
| Handler.ResolveItemsSteps | index.py:84-138 | the `for name in item_names` loop computes exactly the functional batch |
| Handler.ResolveItemsLegacySteps | main.py:131-142 | main.py's loop computes exactly the functional batch |
| Scenarios.BulletAfterTabStripped | index.py:55 | the line `-<tab>-Sponge` is unchanged by the per-line strip |
| Scenarios.BulletAfterTab | index.py:69-71 | the item name cleaned from `-<tab>-Sponge` starts with `-` |
| Scenarios.IndentedBullet | main.py:118-119 | the item name cleaned from the raw line `<tab>- Sponge` starts with `-` |
| Scenarios.IndentedLabelStripped | index.py:55 | index.py strips ` Task Name: Mop` to a labelled line |
| Scenarios.IndentedLabelCurrent | index.py:58-59 | index.py reads the task name "Mop" from that line |
| Scenarios.IndentedLabelLegacy | main.py:104-107 | main.py tests the raw indented line and falls back to "Untitled Task" |
| Scenarios.SecondLabelEndsName | index.py:58 | the task name of `Task Name: A Task Name: B` is `A` |

## Left out

- FastAPI app setup, CORS, static files and the root route: transport plumbing, not logic.
- The Groq client, the prompt and the model call: an external service. The generated text is an arbitrary input string.
- Supabase client construction and environment variables: the store is a parameter, a row snapshot with an optional outage point.
- `ilike` wildcards: a `%` or `_` inside an item name is matched literally here, as plain substring containment.
- Unicode case mapping: `lower()` maps ASCII capitals only. Whitespace follows `str.isspace` exactly.
- Numbers: a `quantity` is an unbounded integer. Floating-point values and other JSON shapes are out of scope.
- Store row order: the snapshot's order stands for whatever order the store returns.
- `print` logging, `uvicorn.run` and all of script.js: output and browser UI.
- Exceptions other than the three faults (a `None` response text, a malformed row object): they come from the external services that are not modelled.
- Parser.CleanFirstChar: states less than "an item name never starts with `*` or `-`", because that promise is false in both versions. `Scenarios.BulletAfterTab` shows `-<tab>-Sponge` cleaning to a name that starts with `-` in index.py, and `Scenarios.IndentedBullet` shows the same for `<tab>- Sponge` in main.py. `lstrip('*- ')` stops at a tab, and the following `strip()` removes it, which exposes the next bullet character.
- Resolver.Tiers: states bounds and the first pattern only. Which later pattern is queried in which case is stated by `Resolver.WordHit`, `Resolver.PrefixTier` and `Resolver.NoTierHits`.
