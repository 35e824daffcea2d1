# Evidence ingest: a verified model

This project models the parts of an evidence-ingest library that carry state, protocols, parsers or
arithmetic, and proves what its documentation and tests promise of them:

- **Redaction** (`Regex`, `Splice`, `SplicePlaces`, `Substitution`, `Catalog`, `CatalogFacts`, `Luhn`, `Redaction`,
  `RedactionPasses`, `RedactionProof`, `PanProof`, `KeyStep`, `Cleanliness`, `OnePassWitness`): the pattern
  catalog as regular expressions with the backtracking engine's choice of match, leftmost non-overlapping
  substitution, the theorem that redacted text is clean, and exactly what one catalog pass can leave.
- **What the patterns mean** (`RegexShapes`, `PatternShapes`, `PiiShapes`, `Pii`, `PiiWitness`, `RedactionCounts`): every
  pattern described character by character, and with it what the detector finds, what `redact` leaves of e-mail
  addresses and phone numbers, when it changes nothing, and what its findings count.
- **Replay dedup** (`Lru`, `DedupSpec`, `DedupProof`, `DedupCache`, `GithubDelivery`, `GithubProof`): the two-level LRU
  with time-to-live and lazy deletion, as a class whose answers equal a predicate on the history of marks; and
  the GitHub connector as its client.
- **Sanitizer** (`Sanitizer`, `SanitizerProof`, `Receipts`, `ReceiptShapes`, `Observations`): sanitizing observations
  and metadata trees, the shared findings, receipts and the gateway's check of them.
- **Sanitizer worker** (`SanitizerWorker`, `SanitizerWorkerProof`): callers, lock, child process and pipe as a
  transition system with a clock; every interleaving, crash, hang and kill.
- **Polling** (`Strings`, `Decimals`, `UrlQuery`, `Poll`, `PollProof`, `TokenPoll`, `GraphQlPoll`, `GraphQlProof`): pagers
  that carry their position in the URL, caps, and refinement to "the server's whole list, or failure with nothing
  emitted", for servers described by the JSON they answer with.
- **Chained evidence** (`Json`, `Ledger`, `LedgerText`, `Trace`, `TraceProjection`, `TraceProof`, `TraceShape`, `Bundle`,
  `BundleProof`): a ledger that is written down is read back and its alterations are reported; accepted trace sets
  and bundles, field by field.
- **Parsers, delivery, merging** (`FieldPath`, `FieldPathGrammar`, `Manifest`, `ManifestProof`, `ManifestGrammar`,
  `Gateway`, `CursorPolicy`, `Heuristics`, `HeuristicRules`).

How the model is set up:

- Text is ASCII: `\d`, `\w`, `\s`, `isdigit`, `strip` and `lower` are their ASCII parts. In a query string a text
  stands for its UTF-8 bytes.
- Digests, MACs, the JSON reader, the disk, the transport and the clock are parameters. No digest is assumed
  injective: where a chain determines data, the statement is "equal, or here are two inputs that collide".
- The bucket that `mark_seen` shares with the dictionary is copied back after it is changed. The caps may
  be zero; the specification is exact there too. The clock is read where the code reads it and is monotone.
- The worker model assumes what the code assumes: no asynchronous interrupt between send and receive, a
  kill that takes effect within its join, and a poll that only reports ready or not. Spawning, sending and
  receiving take no time.
- A loop is a method proved equal to a function; what the code promises is proved about the function.
  Where the code calls through an object or a callable, the model takes a function value.

Where the code and its documentation disagree, or a promise fails on some inputs, the code is modelled:

- `redact_catalog` is documented to leave nothing for the detector after one pass
  (adapter/core/sensitive.py:195-197). The Azure pattern has no word boundary, so replacing a storage key puts a
  boundary behind a token that stands directly in front of it, and the patterns of the three earlier tokens
  (AWS, GitHub and GitHub fine-grained) are not tried again: `OnePassIsNotEnough` has such a text. Nothing but
  these three can be left (`OnePassCleans`), and nothing at all unless such a token stands directly in front of
  a key (`CatalogPassCleans`, `UngluedTextIsCleaned`). The step itself is exact (`KeyStepExactly`), and so is the
  pass where no later pattern takes the exposed token away again (`OnePassExactly`). `redact` makes two
  passes, and its theorem has no condition.
- `redact` is documented to scrub e-mail addresses and phone numbers (adapter/core/redaction.py:4-9). One that is
  spelled in the text but has no edge when its turn comes gets one when a number beside it is replaced:
  `AddressMayBeLeft` and `NumberMayBeLeft` have such texts. What is left always stands directly against a
  placeholder, or a bracket that was there (`LeftIsAgainst`); no number behind a keyword is ever left
  (`NoContextNumberLeft`); no address is left unless the replacement of numbers exposes one
  (`UnexposedAddressesAreGone`), as it cannot where the numbers stand apart from words (`NumbersApartLeaveNone`). Each
  replacement is exact (`ReplacementExactly`, `PhonePassExactly`), and so is the whole where the last catalog pass
  finds nothing (`LeftExactly`).
- "Other query parameters ride along" (runtime/poll_client.py:116-118) fails for blank values and repeated
  names, which `parse_qsl` into a dictionary drops; `OthersSurvive` has the exact condition.
- A caller-supplied `completed_at` is not checked when a receipt is issued, so the gateway can reject it;
  `ReceiptIsAccepted` has the exact condition.
- The GraphQL walk stops after 100 pages without an error, where the REST walk raises.
- An error of the sink advances the cursor cleanly if an opener raises an HTTP error 201; `FailedEmitExactly`
  has the exact condition for a whole `emit`. `urllib` raises HTTP errors outside 2xx only.
- The last chain hash does not determine a one-entry ledger, nor the text of the genesis entry's previous field
  (`GenesisIsLoose`).
- A stage record's digest does not cover its link to the previous record
  (scripts/validate_information_cycle_bundle.py:85, 114-117), so the last record digest does not determine the
  earlier records: any stage can be rewritten without changing another record's digest (`RewrittenIsAccepted`,
  `LastDigestIsLoose`). All twenty digests together determine all stages (`ChainDetermines`), and so does the
  bundle id, which however leaves the bundle's two times open (`IdDetermines`).

## Model

| member | source | states |
|---|---|---|
| Regex.EndsAreMatches | adapter/core/sensitive.py:42-88 | Every end the backtracking engine tries for a pattern is a match in the declarative sense of `Matches`, so what the engine finds is what the pattern says. |
| Substitution.SpansAreHits | adapter/core/sensitive.py:131-148 | `finditer` yields non-overlapping, left-to-right, non-empty spans, and each is where the engine enters the pattern and ends. |
| Luhn.IsLuhnValid | adapter/core/sensitive.py:91-102 | The parity loop returns true exactly when the checksum is divisible by ten. |
| Luhn.ParityIsFromRight | adapter/core/sensitive.py:91-102 | For every length the left-to-right parity sum equals the right-to-left checksum of ISO/IEC 7812-1 Annex B. |
| Luhn.SingleErrorIsCaught | adapter/core/sensitive.py:91-102 | Changing any single digit of a valid string makes it invalid. |
| Luhn.SwapIsCaught | adapter/core/sensitive.py:91-102 | Swapping two adjacent different digits of a valid string keeps it valid exactly when they are 0 and 9. |
| RedactionPasses.DetectAll | adapter/core/sensitive.py:131-148 | The nested loops that append hits return the specification's hit list, class by class and pattern by pattern, with each hit's excerpt. |
| Redaction.HitsAreDiscreet | adapter/core/sensitive.py:114-128 | No hit's excerpt shows any character of a card number or a medical value, nor more than four characters at either end of a secret. |
| RedactionPasses.CatalogPass | adapter/core/sensitive.py:192-204 | The loop that rewrites the text once per pattern, then the card numbers, computes one catalog pass. |
| Redaction.PansOrdered | adapter/core/sensitive.py:176-189 | The spans replaced as card numbers are ordered and disjoint, and are exactly the candidate runs that pass the checksum and have no ID label before them. |
| PanProof.PrecededCarries | adapter/core/sensitive.py:105-111 | A run kept because an ID label precedes it still has that label before it, within the look-back, after the runs around it are replaced. |
| Cleanliness.RedactPanRemovesPans | adapter/core/sensitive.py:176-189 | After the card-number pass no candidate run of the new text counts as a card number. |
| Cleanliness.NoAzureBeforeFinalPass | adapter/core/redaction.py:49-72 | After the first catalog pass, and through the email and phone passes, no Azure key is left or created. |
| Cleanliness.CatalogPassCleans | adapter/core/sensitive.py:192-204 | One catalog pass leaves the detector nothing to find, unless an AWS, GitHub or fine-grained GitHub token stands directly in front of a storage key when the keys are replaced. |
| Cleanliness.UngluedTextIsCleaned | adapter/core/sensitive.py:192-204 | The same, read off the caller's text: the three substitutions before the keys bring no token in front of a key. |
| Cleanliness.OnePassCleans | adapter/core/sensitive.py:192-204 | For every text, one catalog pass leaves no card number, no PHI label and no secret but the three kinds that are replaced before the storage keys. |
| KeyStep.KeyStepExactly | adapter/core/sensitive.py:42-53 | Replacing the storage keys leaves the pattern of a token of word characters clean exactly when no such token stands directly in front of a key. |
| KeyStep.KeysAreApart | adapter/core/sensitive.py:47-53 | Two storage keys never overlap. |
| Cleanliness.OnePassExactly | adapter/core/sensitive.py:192-204 | Where the patterns after the storage keys find nothing, one pass is enough exactly when no token stands directly in front of a key. |
| OnePassWitness.OnePassIsNotEnough | adapter/core/sensitive.py:192-204 | A text that one pass does not clean: an AWS access key directly in front of a storage key. |
| OnePassWitness.GluedTokenMayBeSwallowed | adapter/core/sensitive.py:192-204 | A text with such a token that one pass does clean: the exposed access key ends up inside a Slack token. |
| Cleanliness.RedactedIsClean | adapter/core/redaction.py:49-78 | For every text `x`, `detect_sensitive(redact(x))` is empty. |
| PatternShapes.SecretsExactly | adapter/core/sensitive.py:42-65 | The twelve secret patterns match exactly the tokens, keys and headers that are spelled out there character by character. |
| PatternShapes.PersonalExactly | adapter/core/sensitive.py:67-82 | The two medical patterns match exactly a labelled record number and a named field with its colon. |
| PatternShapes.LabelledExactly | adapter/core/sensitive.py:85-111 | A run is taken for an id exactly when one of the eleven id words, a colon and white space end the 30 characters in front of it. |
| PatternShapes.PansExactly | adapter/core/sensitive.py:151-189 | Something is replaced as a card number exactly when 13 to 19 digits between word edges pass the checksum and carry no id label. |
| PatternShapes.DetectsExactly | adapter/core/sensitive.py:131-148 | The detector finds nothing exactly in texts in which no secret, medical value or card number, so described, stands. |
| PatternShapes.RedactedIsHarmless | adapter/core/redaction.py:49-78 | None of these stands in the redaction of any text. |
| PiiShapes.EmailExactly | adapter/core/redaction.py:28 | The e-mail pattern matches exactly the addresses: 1 to 64 local characters, an at sign, dotted labels of 1 to 63, a top-level domain of 2 to 63 letters, and word edges at both ends. |
| PiiShapes.PhoneExactly | adapter/core/redaction.py:34-40 | The phone pattern matches exactly the 3-3-4 numbers and the numbers with a dialing prefix that are no part of a longer run of digits. |
| PiiShapes.ContextOfPiece | adapter/core/redaction.py:44-46 | The keyword pattern matches exactly a phone keyword, one to four separators and 7 to 14 grouped digits. |
| Pii.ReplacementExactly | adapter/core/redaction.py:59-63 | Just those addresses and numbers stand in a text after a replacement that it leaves untouched and that have their edges once the placeholders stand around them. |
| Pii.EmailPassLeavesNone | adapter/core/redaction.py:59 | No address stands in any text after addresses are replaced. |
| Pii.PhonePassExactly | adapter/core/redaction.py:60 | A phone number is left after numbers are replaced exactly when one with a plus sign or parenthesis in front stood directly behind a replaced one. |
| Pii.NoContextNumberLeft | adapter/core/redaction.py:49-78 | No number behind a phone keyword is left in the redaction of any text. |
| Pii.LeftIsAgainst | adapter/core/redaction.py:49-78 | Whatever the text, an address or phone number left in its redaction stands directly against a placeholder or a bracket. |
| Pii.UnexposedAddressesAreGone | adapter/core/redaction.py:49-78 | No address is left in the redaction of any text in which the replacement of numbers behind keywords exposes none. |
| Pii.NumbersApartLeaveNone | adapter/core/redaction.py:49-78 | No address is left where no replaced number has a word directly against it. |
| Pii.LeftExactly | adapter/core/redaction.py:49-78 | Where the last catalog pass finds nothing, an address or number is left exactly when the replacement of numbers behind keywords exposes it or leaves it. |
| Pii.LeftAloneExactly | adapter/core/redaction.py:49-78 | A text comes back unchanged exactly when no secret, medical value, card number, address, phone number or number behind a keyword stands in it. |
| PiiWitness.AddressMayBeLeft | adapter/core/redaction.py:49-78 | A text of which an address is left: it stood directly in front of a number that is replaced. |
| PiiWitness.NumberMayBeLeft | adapter/core/redaction.py:49-78 | A text of which a phone number is left: it stood directly behind one that is replaced. |
| RedactionCounts.CountsExactly | adapter/core/redaction.py:52-72 | Card numbers are counted as credentials, secrets as secrets, and medical values, addresses and both kinds of phone numbers as personal data; a category is named exactly when its count is positive. |
| RedactionCounts.SecretsNamed | adapter/core/redaction.py:52-72 | Secrets are reported exactly when one, spelled out, stands in the text. |
| RedactionCounts.CardsNamed | adapter/core/redaction.py:52-72 | Credentials are reported exactly when a card number stands in the text. |
| RedactionCounts.PersonalDataNamed | adapter/core/redaction.py:52-72 | Personal data is reported exactly when a medical value stands in the text, or an address or number in the text its replacement sees. |
| DedupProof.ReplayIsExact | adapter/core/webhook_security.py:249-281 | A cache without lazy deletion holds a fresh entry exactly when the history says so: the last mark is at most `ttl` old, fewer than `max_entries` other ids were marked in the bucket since, and no stretch without a write to the bucket saw `max_partitions` other buckets written. |
| DedupCache.QueryIsExact | adapter/core/webhook_security.py:249-262 | The same for the cache with lazy deletion: what expired entries were deleted never changes an answer. |
| DedupCache.DeleteMirrors | adapter/core/webhook_security.py:259-261 | Deleting an expired entry leaves every fresh entry, and their order, as they were. |
| DedupCache.MarkMirrors | adapter/core/webhook_security.py:264-281 | A mark keeps the cache and the cache without deletion side by side: same buckets, same order, same fresh entries. |
| DedupCache.DeliveryDedupCache.constructor | adapter/core/webhook_security.py:234-247 | A new cache has an empty history. |
| DedupCache.DeliveryDedupCache.IsDuplicate | adapter/core/webhook_security.py:249-262 | The answer is the declarative predicate on the history of marks; the history is unchanged. |
| DedupCache.DeliveryDedupCache.MarkSeen | adapter/core/webhook_security.py:264-281 | The history grows by exactly this mark, or not at all for an empty id, and the cache stays exact. |
| DedupCache.DeliveryDedupCache.OpenBucket | adapter/core/webhook_security.py:268-277 | The bucket becomes the newest; a new one evicts the oldest buckets past the cap. |
| DedupCache.DeliveryDedupCache.WriteEntry | adapter/core/webhook_security.py:278-281 | The id becomes the newest entry with the new time; the oldest entries past the cap go. |
| GithubProof.VerifiedExactly | connectors/github/connector.py:125-133 | A delivery counts as signed exactly when the secret is not empty and the first header of that name, in any case, is the MAC of the body, or that MAC behind `sha256=`. |
| GithubProof.YieldsExactly | connectors/github/connector.py:139-167 | An event yields an observation exactly when it is genuine, its body is an object with a pull request, it names a delivery id, and the run so far does not make that id a duplicate; the observation is that pull request under that id. |
| GithubProof.ForgedLeavesNoTrace | connectors/github/connector.py:143-158 | A delivery that is not signed so, or no JSON object, yields nothing and changes nothing for any later delivery: it neither uses up its id nor pushes another out of the cache. |
| GithubDelivery.GitHubConnector.Admit | connectors/github/connector.py:154-158 | A delivery is admitted exactly when the run so far does not make it a duplicate, and then it is marked. |
| GithubDelivery.GitHubConnector.NormalizeEvent | connectors/github/connector.py:139-167 | Each call yields what the run's specification says for it: nothing when rejected or duplicate, else the unwrapped pull request under its delivery id. |
| GithubDelivery.LetThroughAgain | connectors/github/connector.py:154-158 | After a delivery was let through, and not again since, the same id is let through exactly when it is accepted and more than `ttl` passed or at least `max_entries` others were let through in between. |
| GithubDelivery.AtMostOnce | connectors/github/connector.py:139-167 | Over a whole run with a private cache, two events with one delivery id both yield observations only if more than `ttl` passed or at least `max_entries` other deliveries were let through in between. |
| Sanitizer.Findings.MergeCounts | adapter/core/redaction_receipt.py:114-116 | The shared counts grow by the found counts, category by category, whatever order the categories come in. |
| Sanitizer.Findings.SanitizeText | adapter/core/redaction_receipt.py:119-122 | The text is redacted and its findings are merged. |
| Sanitizer.Findings.SanitizeValue | adapter/core/redaction_receipt.py:125-160 | The recursion returns the specified tree or failure; on success the counts grow by the merged findings of all text leaves. |
| SanitizerProof.Conserved | adapter/core/redaction_receipt.py:125-160 | On success the same places exist in both trees; at each, keys and scalars are unchanged and a text is its redaction. |
| SanitizerProof.SucceedsExactly | adapter/core/redaction_receipt.py:125-160 | Sanitizing succeeds exactly when no place holds bytes, a set or an unknown type and every key is its own redaction with no findings. |
| SanitizerProof.FoundIsTotal | adapter/core/redaction_receipt.py:114-160 | The merged findings of a tree are the sum over its text leaves. |
| Observations.SanitizeObservation | adapter/core/redaction_receipt.py:175-232 | The identity checks, field by field sanitizing into one findings dictionary, and the receipt: as specified, including which failure comes first. |
| Observations.IdentityIsKept | adapter/core/redaction_receipt.py:100-111 | On success the eight identity fields and the mode are unchanged, and the identity fields are clean. |
| Observations.MappingIsKept | adapter/core/redaction_receipt.py:163-172 | A metadata mapping with string keys keeps every place, key and scalar. |
| Observations.OutputIsClean | adapter/core/redaction_receipt.py:175-202 | Every text and every key of the sanitized observation passes the detector, at every depth. |
| Observations.ReceiptCountsTexts | adapter/core/redaction_receipt.py:212-224 | The receipt's count of each category is the sum of the findings of all texts of the observation. |
| Observations.SanitizesExactly | adapter/core/redaction_receipt.py:175-232 | An observation is sanitized exactly when its eight identity fields are clean and neither mapping holds anything forbidden. |
| Observations.FieldByField | adapter/core/redaction_receipt.py:175-202 | Excerpt, title, author and, at every place, both mappings of the result are the redactions of the same fields; everything else is unchanged. |
| Observations.ReceiptTells | adapter/core/redaction_receipt.py:203-232 | The receipt has the digests of the observation before and after, the caller's timestamp or else the clock's, and each category once with a positive count. |
| Receipts.WellMadePasses | runtime/sinks.py:102-147 | A well-made receipt passes the gateway's check exactly when its timestamp does, and otherwise fails with `invalid_completed_at`. |
| ReceiptShapes.RequiredExactly | runtime/sinks.py:102-147 | The gateway lets through exactly the metadata whose receipt has just the ten fields, each as spelled out there, and sound findings. |
| ReceiptShapes.TimestampExactly | runtime/sinks.py:44-46 | A timestamp is taken exactly when it is a date, `T`, a time, an optional fraction and a zone, digit by digit. |
| ReceiptShapes.DigestExactly | runtime/sinks.py:43 | A digest is taken exactly when it is `sha256:` and 64 small hexadecimal digits. |
| Observations.ReceiptIsAccepted | runtime/sinks.py:102-147 | Every receipt the sanitizer issues is accepted by the gateway, exactly when a timestamp supplied by the caller is one. |
| SanitizerWorkerProof.StepKeepsInv | adapter/core/redaction_receipt.py:368-413 | Every step of any caller, of the clock or of a worker keeps the invariant on lock, pipe, workers and deadlines. |
| SanitizerWorkerProof.RunKeepsInv | adapter/core/redaction_receipt.py:368-413 | The invariant holds in every state of every run. |
| SanitizerWorkerProof.ReceivedIsOwn | adapter/core/redaction_receipt.py:368-413 | In every interleaving, what a caller receives is the worker's answer to that caller's own request. |
| SanitizerWorkerProof.ReplyIsSanitized | adapter/core/redaction_receipt.py:243-273 | With the real worker loop, a reply is the caller's own observation, sanitized. |
| SanitizerWorkerProof.FreeLockIsQuiet | adapter/core/redaction_receipt.py:368-413 | While the lock is free, nothing is on its way in the current pipe and no worker is busy. |
| SanitizerWorkerProof.OneWorker | adapter/core/redaction_receipt.py:307-349 | At most one worker process is alive in every state of every run. |
| SanitizerWorkerProof.NoLateWork | adapter/core/redaction_receipt.py:395-402 | A call that has ended, by timeout or otherwise, leaves no work with a live worker. |
| SanitizerWorkerProof.EndsInTime | adapter/core/redaction_receipt.py:293-296 | However many callers queue, a call ends within its own budget plus two join graces, which is within the documented tolerance. |
| SanitizerWorkerProof.OutcomeIsFinal | adapter/core/redaction_receipt.py:368-413 | Once a call has ended its outcome never changes. |
| SanitizerWorkerProof.TimePasses | adapter/core/redaction_receipt.py:368-413 | Time is never stuck: from every reachable state finitely many instantaneous steps lead to one where time can pass, so the time bound is not vacuous. |
| SanitizerWorkerProof.HealthyCall | adapter/core/redaction_receipt.py:286-288 | Whatever crashed or was killed before, once the lock is free a call with any budget can have its answer. |
| UrlQuery.QuoteRoundTrip | runtime/poll_client.py:169-174 | Percent-decoding undoes percent-encoding for every text. |
| UrlQuery.EncodeRoundTrip | runtime/poll_client.py:169-174 | Parsing an encoded parameter list gives the list back, without its blank values unless they are asked for. |
| UrlQuery.ParamIsSet | runtime/poll_client.py:169-174 | The rewritten URL reads back with that one parameter changed and path and fragment kept. |
| UrlQuery.OthersSurvive | runtime/poll_client.py:169-174 | The other parameters survive a rewrite, in order, exactly when none is blank and no name occurs twice among them. |
| UrlQuery.OthersSurviveWalk | runtime/poll_client.py:169-174 | They survive any number of rewrites on that same condition. |
| UrlQuery.BlankParameterIsLost | runtime/poll_client.py:169-174 | The input on which they do not: a blank parameter beside the pager's own is dropped. |
| Decimals.DecimalRoundTrip | runtime/poll_client.py:124-133 | `int(str(n))` is `n` for every integer. |
| Poll.PythonUrlsAreSound | runtime/poll_client.py:124-154 | What the pagers write into a URL they read back. |
| Poll.FetchAll | runtime/poll_client.py:240-273 | The loop computes the specified walk: same requests, same first failure, same payloads. |
| Poll.AtMostHundred | runtime/poll_client.py:262-264 | At most a hundred requests, whatever the server answers. |
| Poll.DeliverPoll | runtime/delivery.py:79-105 | Rows that fail to parse are skipped, everything else is emitted in one batch, and on a failure the sink is not called. |
| Poll.PollAndDeliver | runtime/poll_client.py:240-274 | On any failure of the walk the sink is not called; otherwise it gets one batch for all payloads. |
| PollProof.OffsetPagerMoves | runtime/poll_client.py:124-133 | The offset pager stops after a short page and otherwise moves on by exactly one slice. |
| PollProof.PageNumberPagerMoves | runtime/poll_client.py:145-154 | So does the page-number pager. |
| PollProof.WalkOverSlices | runtime/poll_client.py:240-273 | For any pager that moves by one slice, the walk over a server of slices succeeds exactly within the caps and then returns the rest of the list in order. |
| PollProof.OffsetPollIsComplete | runtime/poll_client.py:113-133 | Offset polling returns the server's list from the first offset on, with no gap or repeat, exactly when it takes at most 100 pages and keeps to the item and byte caps; the requests are those of consecutive slices. |
| PollProof.PageNumberPollIsComplete | runtime/poll_client.py:136-154 | The same for page numbers. |
| TokenPoll.SuccessIsWhole | runtime/poll_client.py:240-273 | A walk that succeeds, over any server and with any pager, has fetched each page with status 200 as JSON with a list of items, and returns just their items in order. |
| TokenPoll.OtherStatusEnds | runtime/poll_client.py:240-273 | A response with another status ends the walk, which fails with that status. |
| TokenPoll.TokenPollIsComplete | runtime/poll_client.py:85-110 | Page-token polling returns every item of a server's chain of pages, in order, exactly when it has at most 100 pages and keeps to the item and byte caps; each request has the token of the page before. |
| GraphQlPoll.FetchRounds | runtime/graphql_poll.py:144-163 | The loop computes the specified walk: same cursors, same first failure, same observations. |
| GraphQlPoll.PollGraphQl | runtime/graphql_poll.py:125-168 | On any failure the sink is not called; otherwise it gets everything in one batch. |
| GraphQlPoll.WalkNeverRepeats | runtime/graphql_poll.py:144-163 | Requested cursors are pairwise distinct and at most a hundred. |
| GraphQlProof.RoundExactly | runtime/graphql_poll.py:83-160 | One round succeeds exactly on a response with status 200 within the caps whose JSON object has no errors and an object `data`, whose nodes are an array of which each object parses; and goes on exactly when the page info says there is a next page and has a cursor for it. |
| GraphQlProof.ChainIsWalked | runtime/graphql_poll.py:144-163 | Against a server that answers each cursor with its page of a chain, as JSON, the result is what the first min(n, 100) pages parse to, in order; a longer chain is cut off without an error. |
| Ledger.EntriesSpellText | scripts/governance_gate.py:63-65 | Cutting the ledger into entries loses nothing: they spell the text from the first header on. |
| Ledger.VerifyLedgerChain | scripts/governance_gate.py:68-103 | The loop reports exactly the specified errors, in order. |
| Ledger.LedgerVerifiesExactly | scripts/governance_gate.py:68-103 | No errors are reported exactly when there are entries, at most one is genesis, and every other is complete, hashed right and linked to the one before. |
| Ledger.LastLinkDetermines | scripts/governance_gate.py:68-103 | Two verified entry lists with the same link `n` agree in all hashes up to there, or the texts hashed by the two entries in one place `k <= n` differ and have one hash. |
| Ledger.LedgerIsDetermined | scripts/governance_gate.py:45-103 | The same for two ledger texts of equally many entries with one last link. |
| LedgerText.PrintRoundTrip | scripts/governance_gate.py:45-65 | A written ledger of any length is cut and read back entry by entry, with every content, previous and chain hash. |
| LedgerText.PrintedVerifiesExactly | scripts/governance_gate.py:45-103 | A written ledger is reported free of errors exactly when it has entries, at most one names GENESIS and has no chain hash, and each other has the hash of its content and previous hashes and names what it follows. |
| LedgerText.IssuedLedgerVerifies | scripts/governance_gate.py:45-103 | A ledger issued with computed hashes is reported free of errors, at any length. |
| LedgerText.AlteredChainIsReported | scripts/governance_gate.py:93-101 | Overwriting a chain hash of a correct ledger is reported where it stands. |
| LedgerText.AlteredContentIsReported | scripts/governance_gate.py:93-101 | So is overwriting a content hash, or the two texts hashed collide. |
| LedgerText.AlteredPreviousIsReported | scripts/governance_gate.py:88-92 | So is overwriting a previous hash. |
| LedgerText.GenesisIsLoose | scripts/governance_gate.py:45-103 | Ledger texts without errors that the last link does not tell apart: a genesis entry alone, whatever its content hash and whatever its previous field says around the word GENESIS. |
| TraceProof.ProjectTrace | runtime/transformation_trace.py:259-506 | The projection that appends record after record and hands on its state returns the specified set or failure; its closing validation never fails. |
| TraceProof.ProjectionIsAccepted | runtime/transformation_trace.py:259-506 | Whatever the projection builds passes the validator, with or without capture and delivery phases, for every valid context. |
| Trace.ValidateTraceSet | runtime/transformation_trace.py:509-561 | The validator's loop returns the specified verdict and first failure. |
| TraceShape.RecordExactly | runtime/transformation_trace.py:525-561 | A record passes on its own exactly when every field is as spelled out there: schema, ids, phase, revision, the phase's contract and its fingerprint, the digests of both sides, `canonical` false, and the three objects. |
| TraceShape.ValidatedExactly | runtime/transformation_trace.py:509-561 | A set is accepted exactly when it has the schema, ids that are not blank, and such records, no phase twice, each input digest the output digest before it. |
| TraceShape.ProjectionShows | runtime/transformation_trace.py:259-506 | A projected set shows capture, observation, emission, envelope and delivery of its trace as they are there, phase by phase in order. |
| TraceShape.OutputsAreHandedOn | runtime/transformation_trace.py:544-554 | In an accepted set each record's input data is the output data of the record before, or two different values have the same digest. |
| BundleProof.CheckBundle | scripts/validate_information_cycle_bundle.py:198-326 | The loops over stages and citations, and the checks after them, report exactly the specified errors. |
| BundleProof.AcceptedExactly | scripts/validate_information_cycle_bundle.py:198-326 | No semantic errors are reported exactly when the declarative acceptance predicate holds and the raw-sample and provenance checks, which are parameters, report nothing. |
| BundleProof.NothingPassesAfterABlock | scripts/validate_information_cycle_bundle.py:269-291 | No passed stage follows a failed or unproven one. |
| BundleProof.CitedOutputIsReal | scripts/validate_information_cycle_bundle.py:243-258 | Every cited output digest is the aggregate of artifacts that are on disk, put out by a stage at or before the citing one. |
| BundleProof.MissingOutputIsMissing | scripts/validate_information_cycle_bundle.py:259-264 | An output cited as missing is put out by no stage. |
| BundleProof.ClassIsStrongestHeld | scripts/validate_information_cycle_bundle.py:308-314 | The bundle's class is `component` exactly when some stage passed, and `none` otherwise. |
| BundleProof.IdDetermines | scripts/validate_information_cycle_bundle.py:84-111 | Two accepted bundles have one id exactly when they are the same but for their two times, or their contents collide; with any other times an accepted bundle stays accepted. |
| BundleProof.DigestDeterminesRecord | scripts/validate_information_cycle_bundle.py:114-117 | Two accepted stages have one record digest exactly when they are equal up to their links, or collide. |
| BundleProof.ChainDetermines | scripts/validate_information_cycle_bundle.py:221-237 | Accepted bundles whose record digests all agree have the same stages, links included, or the records of some stage collide. |
| BundleProof.RewrittenIsAccepted | scripts/validate_information_cycle_bundle.py:84-117 | Whatever is put into a stage of an accepted bundle, bringing its digest, the next link and the id up to date makes the bundle acceptable again without changing any other record's digest. |
| BundleProof.LastDigestIsLoose | scripts/validate_information_cycle_bundle.py:84-117 | Two accepted bundles with one last record digest and different first records. |
| FieldPath.ParseFieldPath | scripts/validate_redaction_evaluation_contract.py:131-175 | The nested loops return the specified tokens or failure. |
| FieldPath.RenderRoundTrip | scripts/validate_redaction_evaluation_contract.py:131-175 | Parsing the rendering of any list of indexes and plain keys gives the list back. |
| FieldPath.ParsedRendersBack | scripts/validate_redaction_evaluation_contract.py:131-175 | Whatever parses has a rendering that parses alike. |
| FieldPathGrammar.ParsesExactly | scripts/validate_redaction_evaluation_contract.py:131-175 | A text is a field path, and gives these tokens, exactly when it is `$`, or components with an optional `$` or `$.` in front: keys without dot or bracket and bracketed digits, a dot between two keys and optional elsewhere. |
| FieldPath.ResolveField | scripts/validate_redaction_evaluation_contract.py:178-189 | Resolving a path follows its tokens into the document. |
| FieldPath.ResolvingIsFollowing | scripts/validate_redaction_evaluation_contract.py:178-189 | Resolving the rendering of tokens is following them. |
| Manifest.LoadManifest | mods/_manifest.py:43-77 | The line-by-line loop returns the specified manifest or first failure. |
| Manifest.SameSignificantLinesLoadAlike | mods/_manifest.py:49-51 | Blank lines and comments, wherever they stand, do not change the result. |
| Manifest.EndingsDoNotMatter | mods/_manifest.py:49 | Lines joined by LF, CRLF or CR are read as the same lines. |
| ManifestProof.PrintRoundTrip | mods/_manifest.py:43-95 | Printing a well-formed manifest with its keys in any order and loading it gives it back. |
| ManifestProof.PrintedTextLoads | mods/_manifest.py:43-95 | The same for the text, with any line ending and with blank lines and comments anywhere. |
| ManifestGrammar.ReadsExactly | mods/_manifest.py:49-76 | A line is read as ignored, as an item or as a key with its value exactly when it is spelled so, and in no other way. |
| ManifestGrammar.LoadsExactly | mods/_manifest.py:43-95 | A text loads, and gives this manifest, exactly when each line says something in its place, no key comes twice, and the lines give the three values, both lists and something forbidden. |
| Gateway.PreparedExactly | runtime/sinks.py:150-161 | Preparation succeeds exactly when every emission passes the screen and carries, or is given, a receipt that passes; nothing else of it changes. |
| Gateway.GatewaySink.constructor | runtime/sinks.py:197-211 | A new sink has made no request and trusts no endpoint. |
| Gateway.NewSink | runtime/sinks.py:212-216 | A sink is made exactly when neither the token nor a header value has a line break in it. |
| Gateway.GatewaySink.Emit | runtime/sinks.py:218-230 | An invalid emission or receipt, a missing endpoint or a wrong path make no request; otherwise a handshake unless one succeeded, and posts until a mapping or a post fails. No post in the log precedes a successful handshake, over any sequence of calls. |
| Gateway.GatewaySink.VerifyCompatibility | runtime/sinks.py:232-266 | One capabilities request unless compatibility is verified; verified exactly when it reports no error. |
| Gateway.PostedIsPrefix | runtime/sinks.py:229-289 | The posts of one call are the envelopes of a prefix of its list, in order: the whole list exactly when it succeeds, otherwise up to the post that failed or to the emission that has no envelope. |
| CursorPolicy.CleanAdvanceExactly | runtime/cursor_policy.py:229-289 | A failed post advances the cursor as if it had succeeded exactly when the opener raised an HTTP error whose code is 201. |
| CursorPolicy.FailedEmitExactly | runtime/cursor_policy.py:229-289 | Of the errors of a whole `emit`, those the policy takes for a success are exactly those after a post answered by an HTTP error 201. |
| CursorPolicy.FailedEmitNeverAdvancesCleanly | runtime/cursor_policy.py:229-289 | With an opener that raises HTTP errors outside 2xx only, no failed `emit` advances the cursor as if it had succeeded. |
| CursorPolicy.HandshakeNeverAdvances | runtime/cursor_policy.py:146-192 | A failed handshake never advances the cursor. |
| CursorPolicy.RejectionTable | runtime/cursor_policy.py:136-192 | Of the gateway's HTTP rejections, 422 and 400 are quarantined, other 4xx but 429 are recorded and passed over, and only they (and 201) advance. |
| CursorPolicy.VerdictTable | runtime/cursor_policy.py:136-289 | The verdict for any status and reason, with the eight named reasons spelled out: what is quarantined and why, passed over and as what, retried, or taken for a success. |
| Heuristics.Dedupe | adapter/core/heuristics.py:218-228 | The loop keeps exactly the specified advisories. |
| Heuristics.DedupedPlaces | adapter/core/heuristics.py:218-228 | What is kept are the first occurrences of their kind and scope, in order, and nothing else. |
| Heuristics.PromoteSignals | adapter/core/heuristics.py:65-109 | Each provider signal yields exactly one advisory: itself or a diagnosis. |
| HeuristicRules.UniversalExactly | adapter/core/heuristics.py:112-215 | Each of the eight kinds of universal advisory is given exactly when its rule holds of the body, authors and markers as they stand, and no other kind is. |
| Heuristics.EvaluateIsIdempotent | adapter/core/heuristics.py:231-246 | Evaluating twice is evaluating once, and nothing but the advisories changes. |
| Heuristics.EvaluateMerges | adapter/core/heuristics.py:231-246 | The advisories have pairwise distinct kind and scope, in first-occurrence order, and no universal rule adds a kind a provider signal carries. |

## Left out

- Cleanliness.CatalogPassCleans: says when one pass is enough. That it is enough only then is false: a later pattern may take the exposed token away again (`GluedTokenMayBeSwallowed`). `OnePassExactly` has both directions where no later pattern finds anything.
- Pii.LeftExactly: is about texts after which the last catalog pass finds nothing. Where it does find something, `LeftIsAgainst` and `UnexposedAddressesAreGone` hold, but which phone numbers that pass exposes is not said.
- TokenPoll.TokenPollIsComplete: is about a server whose chain of pages does not change between requests.
- LedgerText.PrintRoundTrip: is about entries with one-line subjects that name none of the three hashes; what the verifier reads from other texts is `Ledger.Entries` and `Ledger.ParseEntry`.
- PollProof.OffsetPollIsComplete: is about a server whose list does not change between requests.
- SanitizerWorkerProof.HealthyCall: says that an answer can be had, not that a scheduler will give it.
- GithubDelivery.AtMostOnce: is about a cache of the connector's own and sequential calls; threads racing between query and mark are not modelled.
- GithubDelivery.GitHubConnector.NormalizeEvent: does not model how `parse_pull_request` maps the fields of a pull request, nor what it raises.
- Pattern labels and catalog versions.
- Unicode classes in patterns, invalid UTF-8 in percent-escapes, surrogates in digests.
- The regular-expression features the catalog does not use.
- Webhook signature schemes other than the GitHub one; HMAC, SHA-256 and base64 themselves.
- `guarded_sanitize_observation`'s size and ruleset guards, `_shutdown`, `reset_for_tests`, `worker_alive`.
- A kill that fails within both join graces (`kill_failed`): the model assumes it succeeds.
- The order in which missing manifest keys are reported, which the code takes from a set.
- The BOM of a manifest file and its decoding.
- The messages of ledger, trace and bundle errors beyond their kind and place; which field of a trace context is invalid.
- The bundle's raw-sample policy and git provenance, which are one parameter, and its schema checks; sorting artifacts by path before they are hashed.
- The gateway envelope mapping and the checks of a capability report, which are parameters.
- `verify_entry_subject_locality`, `verify_feature_index`, and the rest of the repository's scripts.
- Provider field mapping in the connectors and the advisory mods: each picks strings out of a payload and promises nothing that spans several calls.
- The command line, OAuth consent, configuration and the document generators: they drive files, terminals and networks that are not part of this model.
