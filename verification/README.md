# Verification of the CucQuy backend

A Dafny model of the self-contained algorithms and state machines of the CucQuy backend, with
proofs of what they promise. `dafny verify dfyconfig.toml` checks the whole project.

- `common.dfy`: two helpers.
- `text.dfy`, `phrase.dfy`: string normalisation, token phrases, and the key scan of both address matchers.
- `old_match.dfy`, `old_matcher.dfy`: the three-level address matcher, as functions over a catalogue and as the object that builds and scans its key lists.
- `match_keys.dfy`: the key lists of both matchers name by name.
- `ai_reply.dfy`: arbitrary AI replies, and what answers and picks do to a result array.
- `old_service.dfy`: the four tiers that merge replies in place. `old_examples.dfy` holds the two counterexamples.
- `new_match.dfy`, `new_service.dfy`: the two-level matcher with aliases and hints, and its service; `new_examples.dfy` holds a counterexample.
- `sqlcipher.dfy`, `wal.dfy`: page decryption and write-ahead-log replay on byte buffers; `wal_log.dfy` lays a log out byte by byte (section 4.1 of the SQLite "Database File Format").
- `tts.dfy`, `tts_cache.dfy`: the number reader, the payment sentence and the bounded audio cache.
- `migrate.dfy`: the boot-time migration runner under crashes and overlapping boots.
- `network.dfy`: the network guard with its two caches under interleaved requests; `network_visit.dfy` ties the methods to the runs, `network_changes.dfy` says when a change of the networks is seen.
- `pacing.dfy`: the gates and spacing of customer messages.
- `spx_export.dfy`, `sheet_cells.dfy`, `spx_table.dfy`: column letters, escaping, cells and shared strings (sections 18.3.1.4 and 18.4.9 of ECMA-376 Part 1), and how the table is written (GetSubstitution in ECMA-262).
- `payment.dfy`: the payment account table through migrations 005, 099, 100 and 101.
- `depreciation.dfy`: straight-line depreciation over calendar months.
- `sheet_names.dfy`, `sheet_case.dfy`: unique sheet names, as written and up to case.

Code that changes things step by step is modelled by methods over classes and arrays, each proved
against a function; the lemmas then state what that function means. Requests that interleave and
boots that overlap are runs of events over a state.

What is assumed: the fold of `norm` (accent removal and lower case) is any map per character that
fixes a-z, 0-9 and the space; key derivation and AES are functions of which only length keeping is
assumed, plus an inverse where encryption is spoken of; AI replies, database answers, clocks,
failures and crashes are arbitrary.

## What the proofs brought out

- The tier-2 merge of AI answers can pair a state found by the rules with a city of another state (`OldExamples.MixedParents`); `OldService.RunSurvives` gives the exact condition.
- `snap` does not fix a catalogue name that shares its stripped form with an earlier one (`OldMatch.SnapIdentity`).
- An old-district hint can beat a province name (`NewExamples.HintBeatsName`), but only a one-letter one (`NewMatch.NameAgainstHint`); the comment in the source claims it never does.
- A WAL frame that is accepted but names page 0 makes the replay throw (`Wal.ApplyWal`, `Wal.ThrowsIff`); malformed page sizes of 40, 48 and 56 bytes are accepted as well, because negative bounds count from the end (`Wal.OpensIff`). Commit markers and checksums are not looked at, so uncommitted frames are applied too; the header comment of the file, which says the WAL is not merged, is out of date.
- A completed save of guarded screens is undone for up to 15 s by a fetch that was in flight (`Network.CompletedSaveSeen`, `NetworkChanges.CompletedSaveUndone`). A network change clears its cache too early: a check that begins after the change has completed, with nothing in flight, can still be decided by the old status (`NetworkChanges.NetworkChangeMissed`; `NetworkChanges.CompletedChangeSeen` says exactly when not).
- The times to live of the network guard count from when a read is stored, so a block can rest on a read of any age (`NetworkChanges.BlockedOnOldReads`).
- The comment on message pacing says that beyond 15 minutes a message goes out at once; the code sends it after exactly 15 minutes, and from then on messages share send times (`Pacing.BurstCutsAtThirtyTwo`).
- Overlapping requests for one amount drop an audio clip needlessly (`TtsCache.OverlapShrinks`, `TtsCache.OverlapHappens`).
- Two employees whose names differ only in case get sheet names that Excel considers equal (`SheetCase.CaseIsDistinguished`, `SheetCase.DistinctToExcelIff`).
- The added table entries are passed to `String.replace` as a replacement pattern, so a dollar before one of `$ & < >`, an apostrophe or a backquote in a cell corrupts the table (`SpxTable.WrittenTable`, `SpxTable.DollarLost`, `SpxTable.TableCutShort`).

## Model

| member | source | states |
|---|---|---|
| `Text.TokenCharacters` | src/modules/ai/tasks/spx-address-old/spx-old-match.ts:14 | the characters that survive are the thirty-six letters and digits |
| `Text.NormAlphabet` | src/modules/ai/tasks/spx-address-old/spx-old-match.ts:7-15 | a normalised string consists of letters, digits and inner spaces |
| `Text.CollapseIsJoin` | src/modules/ai/tasks/spx-address-old/spx-old-match.ts:14-15 | replacing junk runs by a space and trimming yields exactly the maximal junk-free runs joined by single spaces |
| `Text.TokensOfJoin` | src/modules/ai/tasks/spx-address-old/spx-old-match.ts:6-15 | a list of words is recovered from its joined text |
| `Text.NormIsNormal` | src/modules/ai/tasks/spx-address-old/spx-old-match.ts:7-15 | every normalised string is its own token list joined, and its tokens are those of the folded input |
| `Text.NormFixesNormal` | src/modules/ai/tasks/spx-address-old/spx-old-match.ts:7-15 | `norm` leaves every normal string alone |
| `Text.NormIdempotent` | src/modules/ai/tasks/spx-address-old/spx-old-match.ts:7-15 | normalising twice is normalising once |
| `Text.PhraseIsTokenSublist` | src/modules/ai/tasks/spx-address-old/spx-old-match.ts:23-28 | on normal strings the boundary-anchored regular expression matches iff the key is non-empty and its tokens are a contiguous sublist of the text's tokens |
| `Text.StripEmpty` | src/modules/ai/tasks/spx-address-old/spx-old-match.ts:17-21 | prefix stripping empties a normal string only if it was empty |
| `Text.StripDropsTokens` | src/modules/ai/tasks/spx-address-old/spx-old-match.ts:17-21 | stripping a normal string drops whole leading tokens and the rest is normal again |
| `Text.WhitespaceCharacters` | src/modules/ai/tasks/spx-address-old/spx-address-old.service.ts:62 | the characters that are cut down to one space are the white space and line ends of JavaScript, sections 12.2 and 12.3 of ECMA-262 |
| `Phrase.BestPhrase` | src/modules/ai/tasks/spx-address-old/spx-old-match.ts:94-104 | the scan, with its running best and its skips, returns the specified best match |
| `Phrase.BestHitIsWinner` | src/modules/ai/tasks/spx-address-old/spx-old-match.ts:94-104 | the answer is the lexicographic maximum by (len, last position) over the matching keys, the earliest key winning ties; none iff no key matches |
| `Phrase.WinnerIsBestHit` | src/modules/ai/tasks/spx-address-old/spx-old-match.ts:94-104 | conversely any key that wins in this sense is the answer |
| `Phrase.SortIsStable` | src/modules/ai/tasks/spx-address-old/spx-old-match.ts:92 | the length sort is sorted and keeps the order of keys of each length |
| `Phrase.StableSortUnique` | src/modules/ai/tasks/spx-address-old/spx-old-match.ts:92 | a list has only one stable sort by length |
| `Phrase.SortNeverMatters` | src/modules/ai/tasks/spx-address-old/spx-old-match.ts:92-104 | whatever stable sort is applied first, the answer of the scan is the same |
| `Phrase.BestExact` | src/modules/ai/tasks/spx-address-old/spx-old-match.ts:94-104 | the answer is non-empty iff some key occurs as a phrase, and then it is the winner's value |
| `Phrase.BestIs` | src/modules/ai/tasks/spx-address-old/spx-old-match.ts:94-104 | in full: empty when no key occurs; otherwise the value of an occurring key that no other occurring key beats by length, then by last position, then by coming earlier |
| `Phrase.LastIndexIs` | src/modules/ai/tasks/spx-address-old/spx-old-match.ts:99 | the position is the last one at which the key stands, or below zero |
| `OldMatch.ResolveGrounded` | src/modules/ai/tasks/spx-address-old/spx-old-match.ts:139-146 | every answer of `resolve` is prefix-closed, names a listed state, and lists each level under its parent |
| `OldMatch.ResolveExact` | src/modules/ai/tasks/spx-address-old/spx-old-match.ts:139-146 | a level is filled exactly when its parent is and some key of the parent's list occurs in the text; the value is the winning key's |
| `OldMatch.KeysMatchTokens` | src/modules/ai/tasks/spx-address-old/spx-old-match.ts:68-137 | state, alias, city and ward keys match an address exactly when their tokens are a contiguous sublist of its tokens |
| `MatchKeys.NameKeysConcat` | src/modules/ai/tasks/spx-address-old/spx-old-match.ts:84-137 | the keys of two lists of names, one after the other, are those of the first and then those of the second |
| `MatchKeys.StateKeysOfOne` | src/modules/ai/tasks/spx-address-old/spx-old-match.ts:86-90 | a state gives its full form and, when it is new and not empty, its stripped form |
| `MatchKeys.CityKeysOfOne` | src/modules/ai/tasks/spx-address-old/spx-old-match.ts:111-120 | a city gives its full form, its new stripped form from two characters on, and the short forms of a numbered quan |
| `MatchKeys.ShortForms` | src/modules/ai/tasks/spx-address-old/spx-old-match.ts:116-120 | "quan d" with a number d has the short forms "q d" and "qd" of rank 3 and 2; nothing else has any |
| `MatchKeys.WardKeysOfOne` | src/modules/ai/tasks/spx-address-old/spx-old-match.ts:129-134 | a ward gives its full form and its new stripped form from four characters on |
| `MatchKeys.AliasOfOne` | src/modules/ai/tasks/spx-address-old/spx-old-match.ts:69-73 | an alias stands for the last state whose stripped name is its target |
| `MatchKeys.PrefixStripped` | src/modules/ai/tasks/spx-address-old/spx-old-match.ts:17-21 | each listed prefix is dropped when a word follows it |
| `MatchKeys.NothingStripped` | src/modules/ai/tasks/spx-address-old/spx-old-match.ts:17-21 | a name that starts with none of them stays as it is |
| `OldMatch.GroundedInCatalogue` | src/modules/ai/tasks/spx-address-old/spx-old-match.ts:139-180 | a grounded answer names actual rows of the city and ward tables |
| `OldMatch.SnapExact` | src/modules/ai/tasks/spx-address-old/spx-old-match.ts:149-168 | each snapped level is the first listed name that is the same, or the same once prefixes are stripped; failing that the value of the winning key, and empty iff no key occurs |
| `OldMatch.SnapWhole` | src/modules/ai/tasks/spx-address-old/spx-old-match.ts:171-180 | level by level: what the answer snaps to if that is anything, else the winning key of the fallback address under the parent that was chosen; nothing below an empty level |
| `OldMatch.FindIdentity` | src/modules/ai/tasks/spx-address-old/spx-old-match.ts:152-166 | looking a listed name up returns that name iff no different name with the same stripped form comes before it |
| `OldMatch.SnapGrounded` | src/modules/ai/tasks/spx-address-old/spx-old-match.ts:170-180 | whatever strings the AI wrote, the snapped address is grounded |
| `OldMatch.SnapIdentity` | src/modules/ai/tasks/spx-address-old/spx-old-match.ts:170-180 | `snap` without a fallback leaves a catalogue row alone iff no level of it is shadowed |
| `OldMatch.SnapFixesRows` | src/modules/ai/tasks/spx-address-old/spx-old-match.ts:170-180 | with distinct stripped names in every list it is the identity on all rows |
| `OldMatch.SnapIdempotent` | src/modules/ai/tasks/spx-address-old/spx-old-match.ts:170-180 | and idempotent on every input and fallback address |
| `OldMatcherObject.GroupCities` | src/modules/ai/tasks/spx-address-old/spx-old-match.ts:51-56 | the map filled row by row holds, for every state, its cities in row order |
| `OldMatcherObject.GroupWards` | src/modules/ai/tasks/spx-address-old/spx-old-match.ts:57-62 | the same for the wards of every city |
| `OldMatcherObject.IndexStates` | src/modules/ai/tasks/spx-address-old/spx-old-match.ts:65-66 | the stripped-name index holds, for every name, the last state that strips to it |
| `OldMatcherObject.CollectAliases` | src/modules/ai/tasks/spx-address-old/spx-old-match.ts:68-91 | the alias record, filled only for known targets, yields the alias keys in insertion order |
| `OldMatcherObject.PushNames` | src/modules/ai/tasks/spx-address-old/spx-old-match.ts:86-90 | the pushed name keys: full form, then the stripped form when non-empty and different |
| `OldMatcherObject.BuildStateKeys` | src/modules/ai/tasks/spx-address-old/spx-old-match.ts:84-92 | the state key list is the stable length sort of names and aliases |
| `OldMatcherObject.OldMatcher.constructor` | src/modules/ai/tasks/spx-address-old/spx-old-match.ts:46-92 | a new matcher carries the maps and keys of its catalogue |
| `OldMatcherObject.OldMatcher.PushCityKeys` | src/modules/ai/tasks/spx-address-old/spx-old-match.ts:111-120 | one city contributes its full key, its stripped key of two characters or more, and for "quan n" the keys "q n" and "qn" with weights 3 and 2 |
| `OldMatcherObject.OldMatcher.CityKeys` | src/modules/ai/tasks/spx-address-old/spx-old-match.ts:108-123 | the keys of all cities of a state, sorted |
| `OldMatcherObject.OldMatcher.WardKeys` | src/modules/ai/tasks/spx-address-old/spx-old-match.ts:126-136 | the keys of all wards of a city, sorted |
| `OldMatcherObject.OldMatcher.Resolve` | src/modules/ai/tasks/spx-address-old/spx-old-match.ts:139-146 | the object computes the specified resolution |
| `OldMatcherObject.OldMatcher.SnapState` | src/modules/ai/tasks/spx-address-old/spx-old-match.ts:149-154 | the object computes the specified snap of a state |
| `OldMatcherObject.OldMatcher.SnapCity` | src/modules/ai/tasks/spx-address-old/spx-old-match.ts:155-161 | the object computes the specified snap of a city under its state |
| `OldMatcherObject.OldMatcher.SnapWard` | src/modules/ai/tasks/spx-address-old/spx-old-match.ts:162-168 | the object computes the specified snap of a ward under its city |
| `OldMatcherObject.OldMatcher.Snap` | src/modules/ai/tasks/spx-address-old/spx-old-match.ts:171-180 | the object computes the specified snap of a whole address with its fallback |
| `AiReply.RankOfSelected` | src/modules/ai/tasks/spx-address-old/spx-address-old.service.ts:67-69 | the k-th question is an entry that was flagged, and its rank is k |
| `AiReply.SlotIs` | src/modules/ai/tasks/spx-address-old/spx-address-old.service.ts:83 | the item numbered k + 1 answers question k, and no other number does |
| `AiReply.SlotBetween` | src/modules/ai/tasks/spx-address-old/spx-address-old.service.ts:125-127 | the numbers that fall between questions are the fractional ones from 1 to below n + 1 |
| `AiReply.AnyLineIff` | src/modules/ai/tasks/spx-address-old/spx-address-old.service.ts:71-76 | the AI is asked iff some address is non-empty or there are ten questions |
| `AiReply.AnswerIsLast` | src/modules/ai/tasks/spx-address-old/spx-address-old.service.ts:80-90 | the answer to question k is the one of the last item numbered k + 1; no other item counts |
| `AiReply.CollectAnswers` | src/modules/ai/tasks/spx-address-old/spx-address-old.service.ts:80-90 | the answer map has an entry for question k iff an item is numbered k + 1, and holds the last such item |
| `AiReply.HeardPrefix` | src/modules/ai/tasks/spx-address-old/spx-address-old.service.ts:123-133 | the items processed are those before the first fractional index in range, which raises and ends the tier |
| `AiReply.PickStep` | src/modules/ai/tasks/spx-address-old/spx-address-old.service.ts:123-133 | processing one more item changes at most the entry it names, and does to it what picking from the unchanged entry would |
| `OldService.TierExtract` | src/modules/ai/tasks/spx-address-old/spx-address-old.service.ts:66-105 | tier 2 updates the result array in place to the merge of each missing entry with its snapped last answer, every other entry unchanged |
| `OldService.TierPick` | src/modules/ai/tasks/spx-address-old/spx-address-old.service.ts:107-163 | tiers 3 and 4 update exactly the entries they ask about, to the last pick that snaps to something |
| `OldService.SpxAddressOldService.GetMatcher` | src/modules/ai/tasks/spx-address-old/spx-address-old.service.ts:51-57 | the matcher is built from the database once and kept |
| `OldService.SpxAddressOldService.Run` | src/modules/ai/tasks/spx-address-old/spx-address-old.service.ts:60-166 | the result array is the four tiers applied in turn, and later runs use the matcher of the first |
| `OldService.MergeEffect` | src/modules/ai/tasks/spx-address-old/spx-address-old.service.ts:95-99 | the tier-2 merge changes no filled level, stays prefix-closed and in the catalogue, and is nested iff the levels it takes are legal under the kept parents |
| `OldService.PickAllEffect` | src/modules/ai/tasks/spx-address-old/spx-address-old.service.ts:107-163 | tiers 3 and 4 change no filled level, keep prefix closure and catalogue membership, and keep an entry nested iff it was |
| `OldService.RunSurvives` | src/modules/ai/tasks/spx-address-old/spx-address-old.service.ts:60-166 | for every reply sequence: one entry per address in order, no level of the rule-based tier changed, prefix-closed, made of catalogue strings, and nested iff the levels tier 2 took are legal under the kept parents |
| `OldService.AskedIffEmptyLevel` | src/modules/ai/tasks/spx-address-old/spx-address-old.service.ts:67-69 | tier 2 asks about an entry iff one of its levels is empty |
| `OldService.ExtractTaken` | src/modules/ai/tasks/spx-address-old/spx-address-old.service.ts:71-100 | the questions are the entries with an empty level, numbered from 1; the last item with the number of an entry, if it is a full unshadowed row, fills the empty levels and leaves the others |
| `OldService.PickTaken` | src/modules/ai/tasks/spx-address-old/spx-address-old.service.ts:107-163 | the questions are the entries that lack the level and have a list for it, numbered from 1; a pick of a listed unshadowed name with the number of an entry is taken unless an earlier item raised or a later one replaces it |
| `OldService.CityThenWard` | src/modules/ai/tasks/spx-address-old/spx-address-old.service.ts:107-163 | an entry left with a state only, for which tier 3 is told a city and tier 4 a ward of that very city, ends up with both |
| `OldExamples.ShadowedStateMoves` | src/modules/ai/tasks/spx-address-old/spx-old-match.ts:149-154 | two states with the same stripped name: the later one is snapped to the earlier one |
| `OldExamples.MixedParents` | src/modules/ai/tasks/spx-address-old/spx-address-old.service.ts:91-100 | a run whose result pairs a state with a city listed only under another state |
| `NewMatch.NameAgainstHint` | src/modules/ai/tasks/spx-address/spx-new-match.ts:165-191 | a matching name or alias wins against a matching old-district hint unless it is one letter long and the hint occurs further right; without a name the hints decide alone |
| `NewMatch.NameBeatsHint` | src/modules/ai/tasks/spx-address/spx-new-match.ts:172-189 | when no province is written with one letter, a matching name or alias always beats every hint |
| `MatchKeys.HintOfOne` | src/modules/ai/tasks/spx-address/spx-new-match.ts:174-177 | an old-district hint stands, with rank 1, for the last province whose stripped name is its target |
| `MatchKeys.WeakKeysOfOne` | src/modules/ai/tasks/spx-address/spx-new-match.ts:197-207 | a ward gives its full form as strong key and its new stripped form from four characters on as weak key |
| `NewExamples.HintBeatsName` | src/modules/ai/tasks/spx-address/spx-new-match.ts:165-191 | a catalogue and a text in which a one-letter province name matches and an old-district hint wins |
| `NewMatch.ResolveGrounded` | src/modules/ai/tasks/spx-address/spx-new-match.ts:211-217 | a resolved ward is listed under its province, and the province is listed |
| `NewMatch.SnapGrounded` | src/modules/ai/tasks/spx-address/spx-new-match.ts:236-244 | the same for every snapped AI answer |
| `NewMatch.SnapExact` | src/modules/ai/tasks/spx-address/spx-new-match.ts:220-232 | the same for provinces and wards, with full ward names preferred to bare ones |
| `NewMatch.SnapWhole` | src/modules/ai/tasks/spx-address/spx-new-match.ts:236-244 | province and ward likewise, with the fallback address consulted where the answer snaps to nothing |
| `NewMatch.ResolveExact` | src/modules/ai/tasks/spx-address/spx-new-match.ts:193-217 | the province is filled iff a name, alias or hint occurs, the ward iff also a ward name of that province occurs, with full names preferred to bare ones |
| `NewService.BuildProvinceKeys` | src/modules/ai/tasks/spx-address/spx-new-match.ts:115-177 | the key list pushed step by step is the stable sort of names, aliases and hints of weight 1 |
| `NewService.GroupWards` | src/modules/ai/tasks/spx-address/spx-new-match.ts:108-113 | the map holds, for every province, its wards in row order |
| `NewService.NewMatcher.WardKeysWeak` | src/modules/ai/tasks/spx-address/spx-new-match.ts:200-207 | the bare-name keys: stripped forms of at least four characters that differ from the full form |
| `NewService.NewMatcher.Resolve` | src/modules/ai/tasks/spx-address/spx-new-match.ts:211-217 | the object computes the specified resolution |
| `NewService.NewMatcher.SnapProvince` | src/modules/ai/tasks/spx-address/spx-new-match.ts:220-225 | the object computes the specified snap of a province |
| `NewService.NewMatcher.SnapWard` | src/modules/ai/tasks/spx-address/spx-new-match.ts:226-232 | the object computes the specified snap of a ward under its province |
| `NewService.NewMatcher.Snap` | src/modules/ai/tasks/spx-address/spx-new-match.ts:236-244 | the object computes the specified snap with its fallback |
| `NewService.Run` | src/modules/ai/tasks/spx-address/spx-address.service.ts:45-67 | raw answers placed by index: every slot holds the last answer that named it, else blanks; None when the call throws |
| `NewService.PlacedAt` | src/modules/ai/tasks/spx-address/spx-address.service.ts:45-67 | result k of `run` is what the last item numbered k + 1 says, blank when no item has that number |
| `NewService.RowSnaps` | src/modules/ai/tasks/spx-address/spx-new-match.ts:220-244 | a listed unshadowed province and ward are snapped to themselves |
| `NewService.ExtractTaken` | src/modules/ai/tasks/spx-address/spx-address.service.ts:82-105 | the last item with the number of an entry with an empty level fills what was empty and leaves the other level |
| `NewService.PickTaken` | src/modules/ai/tasks/spx-address/spx-address.service.ts:111-143 | a pick of a listed unshadowed ward with the number of an entry is taken unless an earlier item raised or a later one replaces it |
| `NewService.ProvinceThenWard` | src/modules/ai/tasks/spx-address/spx-address.service.ts:76-146 | an entry left with a province only, for which the last tier is told a ward of that province, ends up with both |
| `NewService.TierExtract` | src/modules/ai/tasks/spx-address/spx-address.service.ts:82-109 | tier 2 snaps and merges every missing entry once the call has succeeded, in place |
| `NewService.TierPick` | src/modules/ai/tasks/spx-address/spx-address.service.ts:111-143 | tier 3 fills missing wards from the last usable pick, in place |
| `NewService.ResolveGroundedAll` | src/modules/ai/tasks/spx-address/spx-address.service.ts:76-146 | the result array is the three tiers applied in turn |
| `NewService.GroundedSurvives` | src/modules/ai/tasks/spx-address/spx-address.service.ts:76-146 | for every reply sequence: order and filled levels kept, catalogue strings only, nested iff the ward taken is legal under the kept province |
| `SqlCipher.DecryptSqlcipher4` | src/modules/zalo-bills/lib/sqlcipher.ts:10-44 | the page loop over the buffer gives, byte by byte, the header, the deciphered pages in their places, and zeros elsewhere |
| `SqlCipher.DecryptPage` | src/modules/zalo-bills/lib/sqlcipher.ts:49-65 | the page buffer built in place is the specified plaintext page, or nothing when the cipher refuses |
| `SqlCipher.MainLoopAgrees` | src/modules/zalo-bills/lib/sqlcipher.ts:26-42 | with the default reserve the main loop yields for every page what `decryptPage` yields |
| `SqlCipher.PageDecipherIff` | src/modules/zalo-bills/lib/sqlcipher.ts:15-36 | for every page size and reserve that fit, the ciphertext fills the page up to the reserve and the cipher accepts it iff the page size is a multiple of 16 |
| `SqlCipher.DefaultPagesDecipher` | src/modules/zalo-bills/lib/sqlcipher.ts:15-36 | so at the default parameters the cipher never refuses a page |
| `SqlCipher.DecryptionRestores` | src/modules/zalo-bills/lib/sqlcipher.ts:10-44 | decrypting an encrypted database restores every page: fixed header, plaintext, zeroed reserve |
| `SqlCipher.DecryptionInverts` | src/modules/zalo-bills/lib/sqlcipher.ts:10-44 | a database with the fixed header and zero reserves comes back unchanged |
| `SqlCipher.DecryptPageRestores` | src/modules/zalo-bills/lib/sqlcipher.ts:49-65 | `decryptPage` undoes the encryption of a page |
| `SqlCipher.FileRestored` | src/modules/zalo-bills/lib/sqlcipher.ts:10-44 | a file that starts with a salt and is encrypted under the key derived from passphrase and salt comes back byte by byte: header, plaintext, zeroed reserve |
| `SqlCipher.RoundUp16Is` | src/modules/zalo-bills/lib/sqlcipher.ts:18 | the reserve is rounded up to the next multiple of 16 |
| `SqlCipher.HeaderIs` | src/modules/zalo-bills/lib/sqlcipher.ts:24 | the fixed header is the text of the SQLite format and a zero byte |
| `Wal.ApplyWal` | src/modules/zalo-bills/lib/sqlcipher.ts:72-108 | the replay gives the specified buffer; it fails iff an accepted frame names page 0; an unusable log gives the input buffer itself back; all copies stay inside the buffers |
| `Wal.ReplayedStep` | src/modules/zalo-bills/lib/sqlcipher.ts:99-105 | one accepted frame grows the buffer with zeros to the end of its page if needed and overwrites exactly that page |
| `Wal.LastFrameWins` | src/modules/zalo-bills/lib/sqlcipher.ts:87-106 | a page reads as the last accepted frame that names it |
| `Wal.UntouchedPage` | src/modules/zalo-bills/lib/sqlcipher.ts:87-106 | a page that no accepted frame names keeps its bytes |
| `Wal.LengthIsMax` | src/modules/zalo-bills/lib/sqlcipher.ts:99-104 | the final length is the larger of the original length and the furthest accepted page end |
| `Wal.ReplayIdempotent` | src/modules/zalo-bills/lib/sqlcipher.ts:86-107 | replaying the same log twice equals replaying it once |
| `Wal.AcceptedIff` | src/modules/zalo-bills/lib/sqlcipher.ts:49-65 | in header words, for every page size and page number: a frame is accepted iff its salts are those of the log, its IV is 16 bytes long and its ciphertext whole blocks |
| `Wal.OpensIff` | src/modules/zalo-bills/lib/sqlcipher.ts:49-65 | in numbers: page sizes that are multiples of 16 from 80 on, or 40, 48 and 56; for page 1, whose salt is cut off, also all of 40 to 48 and 80 to 95 |
| `Wal.ThrowsIff` | src/modules/zalo-bills/lib/sqlcipher.ts:87-105 | the replay throws, under every key, iff a frame with the salts of the log names page 0 and the page size is a multiple of 16 from 80 on, or 40, 48 or 56 |
| `Wal.EncryptedFrameAccepted` | src/modules/zalo-bills/lib/sqlcipher.ts:87-98 | a frame of the current log that encrypts a page is accepted and carries that page |
| `WalLog.ReadBe32` | src/modules/zalo-bills/lib/sqlcipher.ts:79-89 | a 32-bit number written most significant byte first is read back |
| `WalLog.LogIsRead` | src/modules/zalo-bills/lib/sqlcipher.ts:76-90 | a log laid out byte by byte is recognised and read as its frames in order, with its page size and salts |
| `WalLog.FrameFields` | src/modules/zalo-bills/lib/sqlcipher.ts:88-95 | page number, salts and page of a frame laid out byte by byte |
| `WalLog.LogReplays` | src/modules/zalo-bills/lib/sqlcipher.ts:72-108 | the replay of a log laid out byte by byte holds, for each page, what the last current frame for it encrypts; frames with other salts do not count |
| `WalLog.LogKeepsRest` | src/modules/zalo-bills/lib/sqlcipher.ts:72-108 | and keeps every page that no current frame names |
| `Tts.ReadThreeDigits` | src/modules/tts/tts.service.ts:21-46 | the string accumulated and trimmed is the words of the group separated by single spaces |
| `Tts.SpokenForms` | src/modules/tts/tts.service.ts:28-43 | when each special word is spoken, in terms of the three digits |
| `Tts.SplitGroups` | src/modules/tts/tts.service.ts:53-57 | the loop splits a number into its base-1000 groups, most significant first |
| `Tts.NumberToVietnameseWords` | src/modules/tts/tts.service.ts:49-69 | the joined and collapsed text is the words of the number separated by single spaces |
| `Tts.WordsReadBack` | src/modules/tts/tts.service.ts:49-69 | below 10^12 a left-to-right reader of number words recovers the number |
| `Tts.TextReadBack` | src/modules/tts/tts.service.ts:49-69 | and so does a reader of the text itself, which splits it at white space and recognises each word |
| `Tts.RenderInjective` | src/modules/tts/tts.service.ts:49-69 | different word lists are different texts |
| `Tts.LimitReadsLikeOne` | src/modules/tts/tts.service.ts:59-66 | 10^12 has no scale word and is spoken like 1 |
| `Tts.ReadUniquelyIffBelowLimit` | src/modules/tts/tts.service.ts:92 | numbers below a bound are spoken uniquely iff the bound is at most 10^12, the clamp of the cache key |
| `Tts.PaymentSentence` | src/modules/tts/tts.service.ts:72-74 | the sentence of an amount |
| `Tts.SentenceUnique` | src/modules/tts/tts.service.ts:72-74 | clamped amounts with the same sentence are equal |
| `Tts.SentenceFits` | src/modules/tts/tts.service.ts:107-110 | every clamped sentence is shorter than 200 characters |
| `TtsCache.PaymentCache.Lookup` | src/modules/tts/tts.service.ts:93-94 | finds the clip stored under the key, if any |
| `TtsCache.PaymentCache.Store` | src/modules/tts/tts.service.ts:98-103 | evicts the first entry of a full cache, then sets the key in insertion order |
| `TtsCache.CacheKeyIs` | src/modules/tts/tts.service.ts:92 | the key is the whole amount within 0 and 999,999,999,999, else the nearer end |
| `TtsCache.AmountReadBack` | src/modules/tts/tts.service.ts:92 | below 10^12 what is spoken for an amount is read back as the amount |
| `TtsCache.PaymentCache.PaymentAudio` | src/modules/tts/tts.service.ts:91-105 | one request: a hit or a failure leaves the cache alone, a miss stores its clip; the clip speaks the whole amount when that is in range, else the nearer end |
| `TtsCache.AlwaysBoundedAndOwn` | src/modules/tts/tts.service.ts:91-105 | in every interleaving of requests the cache has at most 200 entries, with distinct keys, each a clip of its own key's sentence |
| `TtsCache.OnlyOldestEvicted` | src/modules/tts/tts.service.ts:98-102 | an entry disappears exactly when a store of another key finds the cache full and the entry is the oldest one |
| `TtsCache.FirstInFirstOut` | src/modules/tts/tts.service.ts:91-105 | in every run of requests that do not overlap, failing ones included, the cache holds exactly the 200 most recent syntheses in order |
| `TtsCache.OverlapShrinks` | src/modules/tts/tts.service.ts:96-103 | a store makes the cache smaller exactly when it is full and holds the key already, not as its oldest |
| `TtsCache.OverlapHappens` | src/modules/tts/tts.service.ts:91-105 | a run from the empty cache in which the second of two overlapping requests does so |
| `Migrate.LessIff` | src/migrate.ts:34 | one name comes before another iff where they first differ it ends or has the smaller code unit |
| `Migrate.SmallerNumberFirst` | src/migrate.ts:34 | of two names with number prefixes of the same width the one with the smaller number comes first |
| `Migrate.ListSqlSorted` | src/migrate.ts:31-34 | the listing is strictly sorted, smaller numbers before larger ones, and holds exactly the names that end in .sql |
| `Migrate.Database.Transaction` | src/migrate.ts:62-65 | body and row are committed together or not at all, and never for a recorded file |
| `Migrate.RunMigrations` | src/migrate.ts:56-67 | one boot commits the pending files in order up to the first that fails, and reports success iff none did |
| `Migrate.MigrateOnBoot` | src/migrate.ts:36-83 | the whole boot: the committed prefix of the sorted pending files, and it finishes iff that is all of them and every function file applied |
| `Migrate.AlwaysConsistent` | src/migrate.ts:42-83 | across any boots, crashes and overlaps: recorded names = baseline + committed files, each file commits at most once, boots past their migrations have all files recorded, and finished ones have re-applied every function file |
| `Migrate.FinishedBootApplied` | src/migrate.ts:56-83 | every file of a finished boot is recorded |
| `Migrate.CommitsNext` | src/migrate.ts:58-66 | a boot that gets to commit commits the next pending file, whoever committed those before |
| `Migrate.CommitsAreSortedPrefix` | src/migrate.ts:56-67 | with one directory, the commits after any run are a prefix of the sorted pending files, even when boots overlap, and a smaller number is committed before every larger one |
| `Migrate.FinishedMeansComplete` | src/migrate.ts:56-79 | when such a boot finishes, exactly the pending files have been committed, in sorted order |
| `Network.GuardedControllers` | src/modules/network/network.service.ts:100-108 | the controllers collected are exactly those in the map all of whose screens are guarded |
| `Network.CachesUsedIff` | src/modules/network/network.service.ts:73-89 | a cached guard set is used exactly for 15 s and a cached address status exactly for 10 s |
| `Network.NetworkService.IsBlocked` | src/modules/network/network.service.ts:72-122 | one request on its own, through both cache lookups and both awaits: blocked iff it has a set with all screens of the controller in it and a status that is configured and not allowed; and the caches it leaves |
| `NetworkVisit.VisitIsRun` | src/modules/network/network.service.ts:72-122 | whatever the two reads return and however long they take, that request answers and leaves the caches exactly as its events do in a run |
| `Network.AlwaysTraced` | src/modules/network/network.service.ts:72-122 | in every run each cache entry and each answer rests on a recorded database read within its time to live |
| `Network.BlockedIff` | src/modules/network/network.service.ts:100-122 | in every run: an answered check is blocked iff it has a guard set and a status, the controller is in the map with all its screens in the set, and the address is configured but not allowed |
| `Network.BlockedIsJustified` | src/modules/network/network.service.ts:110-122 | whoever is blocked: all screens of the controller were guarded, and the address configured but not allowed, in reads stored less than 15 s and 10 s before use |
| `NetworkChanges.BlockedOnOldReads` | src/modules/network/network.service.ts:72-97 | a run in which a block rests on reads made any given times before they were used: the times to live count from storage |
| `Network.UnguardedNeverBlocked` | src/modules/network/network.service.ts:99-122 | in every run, a check of a controller outside the map, or with a screen missing from the set it used, is not blocked |
| `Network.CompletedSaveSeen` | src/modules/network/network.service.ts:47-51 | a completed save leaves nothing stale iff no guard fetch holding an older version is in flight |
| `Network.SaveSeenForEver` | src/modules/network/network.service.ts:86-97 | from then on every check that still has to get its set gets the saved version or a later one |
| `Network.AlwaysVersions` | src/modules/network/network.service.ts:47-51 | a save never claims a version ahead of the database |
| `Network.StaleFetchReturns` | src/modules/network/network.service.ts:90-94 | otherwise the arriving fetch puts the old set back and the next check uses it |
| `NetworkChanges.CompletedSaveUndone` | src/modules/network/network.service.ts:47-51 | a run from the start in which a check after a completed save uses the set from before it |
| `NetworkChanges.CompletedSaveSeenLater` | src/modules/network/network.service.ts:47-51 | after a completed save no check that begins later, however the run goes on, uses an older set, iff no guard fetch that read an older version is in flight |
| `NetworkChanges.CompletedChangeSeen` | src/modules/network/network.service.ts:58-82 | in every run: after a completed network change no check that begins later, however the run goes on, uses a status from before it, iff when it is written every cached status is 10 s old or older and no address read is on its way back |
| `NetworkChanges.ChangeSeenForEver` | src/modules/network/network.service.ts:72-82 | once no older status is usable or in flight, every check still to be answered uses a status from that version on |
| `NetworkChanges.NetworkChangeMissed` | src/modules/network/network.service.ts:58-82 | a run from the start in which a check that begins after a completed network change, with nothing in flight, is decided by the status from before it |
| `Pacing.AdmittedIff` | src/modules/zalo/customer-notify.service.ts:114-127 | a message goes out iff none of the seven gates fails |
| `Pacing.NeverSentTo` | src/modules/zalo/customer-notify.service.ts:109-127 | forced or not, nothing is sent without a phone number, after an opt-out or beyond the daily limit; unforced also not twice and not for test orders |
| `Pacing.CustomerNotify.NotifyOrder` | src/modules/zalo/customer-notify.service.ts:113-146 | skipped iff a gate fails, with the first failing gate as the reason; sent iff also every await succeeds; the delay is at most 15 minutes; the timestamp moves to the send time once the token is there, even if queueing then throws, and otherwise not at all |
| `Pacing.DelaysBounded` | src/modules/zalo/customer-notify.service.ts:131-135 | for nondecreasing clocks delays lie in [0, 15 min] and send times never decrease |
| `Pacing.SpacedUnlessCut` | src/modules/zalo/customer-notify.service.ts:131-135 | consecutive sends are at least 30 s apart iff the delay was not cut short, in which case it is exactly the cap |
| `Pacing.FirstCutNeedsThirty` | src/modules/zalo/customer-notify.service.ts:131-135 | the first send that is cut short finds at least 30 earlier sends still in the future |
| `Pacing.BurstCutsAtThirtyTwo` | src/modules/zalo/customer-notify.service.ts:131-135 | of messages arriving together the 32nd is the first to be cut short, and the later ones all share one send time |
| `SpxExport.ColLetter` | src/modules/orders/spx/spx-export.util.ts:14-22 | the loop terminates with the bijective base-26 name |
| `SpxExport.ColIndexOfName` | src/modules/orders/spx/spx-export.util.ts:14-22 | every index is recovered from its column name |
| `SpxExport.ColNameOfIndex` | src/modules/orders/spx/spx-export.util.ts:14-22 | every non-empty word over A-Z is the name of its index |
| `SpxExport.EscapeOneChar` | src/modules/orders/spx/spx-export.util.ts:24-25 | the three replacement passes never escape what an earlier pass wrote |
| `SpxExport.UnescapeEscape` | src/modules/orders/spx/spx-export.util.ts:24-25 | unescaping undoes the escaping of every text |
| `SpxExport.EscapedIsPlain` | src/modules/orders/spx/spx-export.util.ts:24-25 | an escaped text contains no angle bracket |
| `SpxExport.SharedStrings.InternString` | src/modules/orders/spx/spx-export.util.ts:50-57 | a known text keeps its index, a new one gets the next, and the index map stays exact |
| `SpxExport.SharedStrings.Counts` | src/modules/orders/spx/spx-export.util.ts:138-143 | the counts written back |
| `SheetCells.CellIs` | src/modules/orders/spx/spx-export.util.ts:100-132 | each cell by its row, column, style and content: the reminder, the eligibility that asks for columns 3 and 4, numbers, blanks, and the index of its own text |
| `SpxExport.FillSheet` | src/modules/orders/spx/spx-export.util.ts:78-133 | every row and cell is what the column and value ask for, text cells carrying their index in the final table; references are counted once per text cell |
| `SheetCells.SheetCounted` | src/modules/orders/spx/spx-export.util.ts:100-132 | the references counted are the cells of the sheet that refer to the table |
| `SheetCells.SheetTextsAre` | src/modules/orders/spx/spx-export.util.ts:117-128 | the texts interned are the non-empty texts before the last two columns, nothing else |
| `SpxExport.IndexShared` | src/modules/orders/spx/spx-export.util.ts:50-57 | two text cells share an index iff their texts are equal |
| `SpxExport.AddedAreDistinct` | src/modules/orders/spx/spx-export.util.ts:138-142 | the table grows by exactly the distinct texts, and by something as soon as there is a text cell |
| `SpxTable.RiskyIff` | src/modules/orders/spx/spx-export.util.ts:142 | a text is risky when a dollar stands in it directly before one of the six characters |
| `SpxTable.EscapedRisk` | src/modules/orders/spx/spx-export.util.ts:24-25 | escaping keeps or creates a dollar pattern exactly when the text has a dollar directly before one of `$ & < >`, an apostrophe or a backquote |
| `SpxTable.SubstituteLowers` | src/modules/orders/spx/spx-export.util.ts:142 | each dollar pattern in the replacement lowers a weight of the text, so no combination of them gives the intended text back |
| `SpxTable.ReadSound` | src/modules/orders/spx/spx-export.util.ts:139-142 | the reader of the written entries is exact: what it reads, written out, is the text |
| `SpxTable.FirstAtIff` | src/modules/orders/spx/spx-export.util.ts:142 | a string pattern is replaced at the first place it stands |
| `SpxTable.TemplateIs` | src/modules/orders/spx/spx-export.util.ts:139-142 | the table is inserted before the first `</sst>`, between what stands there before and after it |
| `SpxTable.OneEntryWritten` | src/modules/orders/spx/spx-export.util.ts:54-142 | the XML of one entry, letter by letter |
| `SpxTable.WrittenTable` | src/modules/orders/spx/spx-export.util.ts:100-142 | the table read back from the written XML is the template's entries and the escaped distinct texts in order iff no text has such a dollar |
| `SpxTable.IndexResolves` | src/modules/orders/spx/spx-export.util.ts:50-57 | then every text cell's index resolves in that table to the escaped text of the cell, and old entries keep theirs |
| `SpxTable.SheetIsResolved` | src/modules/orders/spx/spx-export.util.ts:38-144 | sheet and table together: where `uniqueCount` is the number of the template's entries and no text is risky, the table can be read back and every index in the sheet leads to the escaped text of the very cell it stands in |
| `SpxTable.DollarLost` | src/modules/orders/spx/spx-export.util.ts:142 | the text `$$` is read back as a single dollar |
| `SpxTable.TableCutShort` | src/modules/orders/spx/spx-export.util.ts:142 | with the text `$<` no table is read back at all |
| `SpxTable.BuildSheets` | src/modules/orders/spx/spx-export.util.ts:135-144 | count grows by the text cells and uniqueCount by the distinct texts, the other sheet is cleared, and the table is written by the substituting replace |
| `Payment.PaymentAccounts.constructor` | migrations/005_payment_accounts.sql:20-37 | an empty database gets one active seeded account under the single-active index |
| `Payment.IndexesMean` | migrations/101_payment_account_kind_unique.sql:38-41 | what the three unique indexes allow: one active account, one per kind among the active, one per real kind |
| `Payment.PaymentAccounts.Update` | migrations/100_payment_account_kind.sql:37-39 | an UPDATE checked row by row against CHECK and unique indexes succeeds when every intermediate table is unique |
| `Payment.PaymentAccounts.Migrate099` | migrations/099_payment_account_purpose.sql:24-37 | from any table legal after 005 every statement succeeds; all accounts become receive |
| `Payment.PaymentAccounts.Migrate100` | migrations/100_payment_account_kind.sql:20-56 | from any table legal after 099 every statement succeeds; receive becomes hkd and spend personal |
| `Payment.PaymentAccounts.Migrate101` | migrations/101_payment_account_kind_unique.sql:20-41 | from any table legal after 100 every statement succeeds, including the new unique index |
| `Payment.DerivingChangesNothing` | migrations/101_payment_account_kind_unique.sql:24-41 | after the first update the second changes no row, and real kinds are unique |
| `Payment.ChainKeepsAccounts` | migrations/101_payment_account_kind_unique.sql:22-41 | the chain keeps the accounts, their order and which are active; is_active is exactly kind <> none; at most one account per real kind |
| `Payment.ChainFrom005` | migrations/099_payment_account_purpose.sql:24-37 | from any table with at most one active account the whole chain keeps the accounts, their order and which is active, that one as hkd and all others as none |
| `Payment.Rerun101NoOp` | migrations/101_payment_account_kind_unique.sql:24-36 | running the updates again changes nothing |
| `Depreciation.CalendarIs` | migrations/functions/assets.sql:51 | months start where the closed leap-year formula of the civil calendar says |
| `Depreciation.MarkIs` | migrations/functions/assets.sql:51 | mark i is midnight of the start day i months later, or of the last day of that month when it has no such day |
| `Depreciation.MarkInItsMonth` | migrations/functions/assets.sql:44-51 | mark i lies in calendar month start + i and in no other, whatever the end-of-month fallback does |
| `Depreciation.MarksIncrease` | migrations/functions/assets.sql:51 | marks are strictly increasing |
| `Depreciation.MonthlyCharge` | migrations/functions/assets.sql:46-52 | a calendar month is charged exactly cost / months during the useful life and nothing outside it |
| `Depreciation.Additive` | migrations/functions/assets.sql:46-52 | adjacent periods that do not overlap add up |
| `Depreciation.SharedEndCountsTwice` | migrations/functions/assets.sql:51 | periods sharing an end count what falls on it twice |
| `Depreciation.Conserved` | migrations/functions/assets.sql:46-52 | over disjoint periods covering the lives of the assets the amounts sum to their cost |
| `SheetNames.FreshName` | src/modules/attendance/payroll-export.service.ts:239-243 | the loop terminates with the base name if free, else the first free numbered one |
| `SheetNames.Pigeonhole` | src/modules/attendance/payroll-export.service.ts:242 | the suffixes tried are bounded by the number of names in use |
| `SheetNames.NameSheets` | src/modules/attendance/payroll-export.service.ts:237-245 | all sheet names including the summary are pairwise distinct, each chosen fresh against those before it |
| `SheetNames.CandidateFits` | src/modules/attendance/payroll-export.service.ts:242 | a numbered name has at most 31 characters iff its head and its number have at most 30 together; always below suffix 10,000 |
| `SheetNames.NameFits` | src/modules/attendance/payroll-export.service.ts:236-243 | every sheet name is non-empty, has at most 28 characters unnumbered, and at most 31 while its suffix is below 10,000 |
| `SheetNames.BasePlain` | src/modules/attendance/payroll-export.service.ts:239 | the base name is the first 28 characters of the name, or of NV, with the seven forbidden characters blanked |
| `SheetNames.NamePlain` | src/modules/attendance/payroll-export.service.ts:239-242 | no sheet name contains a forbidden character |
| `SheetNames.LongSuffixOverflows` | src/modules/attendance/payroll-export.service.ts:242 | from suffix 10,000 on a name of 26 characters or more does not fit |
| `SheetCase.DistinctNeedsOneCase` | src/modules/attendance/payroll-export.service.ts:237-245 | sheet names can be pairwise different up to case only if the base names, and number 2 of each repeated one, are |
| `SheetCase.DistinctToExcelIff` | src/modules/attendance/payroll-export.service.ts:237-245 | and exactly then when no base name is, up to case, a numbered form of one |
| `SheetCase.DistinctIffBlindAgrees` | src/modules/attendance/payroll-export.service.ts:237-245 | for every workbook: they are different up to case iff a loop that compares names up to case would choose the same ones |
| `SheetCase.CaseIsDistinguished` | src/modules/attendance/payroll-export.service.ts:237-245 | the workbook of employees AN and An has two sheet names that differ only in case |

## Left out

- Unicode decomposition tables and UTF-16: strings are sequences of code points, and the fold is abstract. Lengths and the default sort order therefore agree with the source on text inside the basic multilingual plane.
- The prompts sent to the AI, truncation of the request, and JSON parsing: a reply is a failure or a list of items with a numeric or missing index and arbitrary strings.
- `getCatalog` of both services and the memoised matcher of the two-level service: the drop-down data and a second copy of the memo already shown for the three-level service.
- ApplyWal: does not model the allocation failure of a page number so large that the buffer exceeds the runtime's limit, because memory is unbounded here.
- DecryptSqlcipher4: requires a page size above zero, because the source loops for ever on zero.
- Agreement of the replay with the SQLite reader algorithm (section 4.5 of its file-format document): the source does not check what that algorithm checks.
- ReadThreeDigits: the wording is fixed by the specification function and `SpokenForms`; no dictionary of Vietnamese is part of this model.
- Non-integer results of floating-point arithmetic on amounts, not-a-number and infinities: amounts are reals, of which the source takes the floor.
- `newOrderAudio`: one memo field.
- MigrateOnBoot: the effect of a migration's statements on other tables is not modelled, only that body and record commit together; interference by other boots is in the event model, not in this method.
- Database transactions of two overlapping boots are ordered by their commits; lock waits are not modelled.
- `guardedScreens`, `networks`, `currentIpInfo`: single queries without state.
- Message wording, the BullMQ queue behind the delay, and two overlapping calls for the same order: the gates are decided from what the database returned to that call.
- ZIP handling and the regular expressions over the template's XML, the two that rewrite the counts included: sheets are rows of cells, the template's columns are given, and its `uniqueCount` is the number of its entries. The table XML is assumed to have markup before its `</sst>` and no dollar after it, as the shipped template does.
- DistinctToExcelIff: where a base name is, up to case, a numbered form of another, only the necessary half is stated in terms of the base names, because which numbers are handed out then depends on the order of the employees; `DistinctIffBlindAgrees` covers those workbooks too.
- FillSheet: number cells carry integers; the text of the two formulas depends only on mode and row and is not modelled.
- Columns of the account table other than id, is_active and kind, non-unique indexes, comments and dropped functions.
- Postgres rounding of numeric division and session time zones: amounts are exact, dates are civil, time is counted from year 0.
- `asset_list`, `asset_upsert`, `asset_delete`: plain statements; of the second only the guarantee of at least one month is used.
- Styles, totals and the other contents of the payroll workbook.
- Stored functions for orders, promotions, payroll, ledger and webhooks, controllers, guards and external services.
