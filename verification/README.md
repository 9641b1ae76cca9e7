# LucidGate, modelled and proved in Dafny

LucidGate is a streaming filtering proxy. This project models the parts of it whose correctness is not
visible from any one function and proves what they promise, for every input, every chunking of a stream and
every interleaving of threads. It has three groups of modules.

**Streaming body filters.** A body arrives in arbitrary chunks; each filter must act as a simple
specification over the whole stream would.

- `PhraseAutomaton`, `PhraseFilters`, `PhraseStreams`: the Aho-Corasick phrase engine. The table grown by
  `addPhrase` is a trie, `buildFailures` turns it in place into the complete automaton (breadth-first order
  makes one pass of inheritance enough), and the resumable scanner blocks at the first offset the phrase
  list demands.
- `HtmlText`, `HtmlDocument`: the visible-text tokenizer in front of the phrase filter, including the
  one-step-fallback search for exactly `</script>` or `</style>` (with a space before the `>` skipping goes
  on), and what a rendered document shows.
- `Masking`, `Injection`, `Substitution`, `Magic`: the four rewriting or holding filters.
- `Chains`, `ContentChains`, `PhraseChains`, `InspectReaders`: the composition of filters, a content filter put
  together from up to three of them, and the reader that drives an engine through a shared scratch
  buffer.

**Indexes that must agree with something simple.**

- `DomainTries`: a label trie flattened into two arrays and searched by binary search; it matches a host
  exactly when some rule's labels are a suffix of the host's.
- `Lru`: the two hand-written linked-list-plus-map LRUs, as refinements of a recency sequence.
- `Intervals`, `Clock`, `Schedules`, `ScheduleRules`: banned time bands cut out of a profile's windows in a
  reused slice, printed as new windows, parsed and asked minute by minute.

**Protocols.** Goroutines are interleavings of atomic steps; every state of every run is covered.

- `UpstreamPools`, `RelayLoop`, `LeaseSystem`: connection leasing, from the pool's lists to the relay loop
  that must release exactly once.
- `ConnLimiters`: two-level admission permits across hot reload.
- `LeafCache`: single-flight certificate generation.
- `AuditScopes`: the copy-on-write map of audit dependencies.

`Bytes` and `Options` hold shared vocabulary.

## What the proofs found

Where the code does not do what its documentation or structure suggests, the model follows the code and
gives a concrete run; the condition under which the intended property holds is stated beside it.

- Threshold, weights and score are cut to `int32`, and nothing rejects a larger setting. A threshold of
  2^32 + 5 acts as 5: a stream of score 5 is stopped that nothing blocks (`PhraseStreams.ThresholdCut`). The
  scanner stops such a stream if and only if no phrase is blocked outright or excepted in it and its sum,
  below the threshold that was set, passes the one it was cut to (`PhraseStreams.FalseBlockIff`); that needs
  a threshold beyond `int32` (`PhraseStreams.FalseBlockNeedsCut`). In the other direction a score that
  overflows is let through (`PhraseStreams.OverflowMissed`), and so are phrases whose weights together
  overflow, even against a threshold of 1 (`PhraseStreams.WeightsMissed`). Reading the threshold as the scanner does,
  both agree at the first blocking offset if and only if a phrase is blocked outright there, the score fits,
  or the overflowing sum lands above the threshold again (`PhraseStreams.FirstBlockExact`).
- The comment on `LeafCache` says a host is generated at most once under bursts. Two threads that both saw
  an expired certificate can each generate: the second drops the first one's fresh certificate
  (`LeafCache.OneExpiryTwoGenerations`). A host is issued twice if and only if its certificate is taken out
  of the cache and issued again later (`LeafCache.IssuedTwiceIff`).
- `subtractIntervals` writes into the slice it is reading. On separate intervals a pass loses minutes if and
  only if the block splits an interval that is not the last one (`Intervals.LosesIffSplits`); a lunch break
  listed before a morning break loses the whole afternoon (`Intervals.AfternoonLost`).
- A profile whose every minute is banned keeps no window, and a profile without windows is let through
  always (`ScheduleRules.FullBanOpens`). The bands hold for a profile if and only if it is named and some
  minute of its week remains, or nothing is banned at all (`ScheduleRules.BansHoldIff`). Nothing can remain
  without a full ban: lunch, a morning break and the morning, banned in that order, lose the afternoon as
  above and let the profile through in the morning too (`ScheduleRules.MorningBannedYetOpen`).
- `InspectReader` flushes after a block when the blocking chunk comes with end of file and yields nothing
  (`InspectReaders.FlushedAfterBlock`). It delivers exactly what is due if and only if no such chunk with
  something left to flush is reached (`InspectReaders.ServedIsDue`). No filter of the source reaches it by
  itself: a phrase filter lets the blocking byte through and has no flush, the HTML filter has none either,
  the sniffer has nothing left (`ContentChains.SnifferIsSilent`), and the others never block. Nor does a
  chain of sniffer, phrase filter and masker, in whatever state (`PhraseChains.ChainIsSilent`).
- Masking can leave a phrase that itself contains `*`: with a byte the phrase leaves out masked as well, the
  stars of that byte complete it (`Masking.StarredPhraseSurvives`, for every such phrase and byte). Among
  phrases that leave some byte out, a phrase is safe whatever else is configured and however the stream is
  cut if and only if it is star-free (`Masking.SafeIffStarFree`).
- When some type is banned, a body shorter than 512 bytes is held back by the sniffer and reaches the phrase
  filter only when the chain is flushed; if a phrase blocks it there, what had passed leaves without being
  masked, and the flush reports no block. A longer body, and any body when no type is banned and the chain has
  no sniffer, is masked up to its block. No star-free phrase is left in the output if and only if it is not
  the case that some type is banned and the body is short, of a type that may pass, and blocked after
  something to mask (`PhraseChains.FilterPhrases`, `PhraseChains.MaskedIff`); "ab" with a type banned, "a"
  masked and "b" blocked comes out as it is (`PhraseChains.ShortBlockUnmasked`).
- A substituter that blocks on a match looks at one piece of the buffer at a time, and the window it keeps is
  only as long as the longest text to find. A text is found if and only if no cut, a window before the end of
  a chunk, falls strictly inside it (`Substitution.LiteralHitIff`, for any number of literal rules); when the
  bytes 1 2 3 and then 4 arrive, the text 2 3 leaves (`Substitution.StraddlerLeaves`).

## Model

| member | source | states |
|---|---|---|
| Bytes.LowerMeans | proxy/semantic_filter.go:262-267 | Folding takes each of the 26 capitals to its small letter, leaves every other byte alone, and so makes two bytes one iff they are the same or the same letter in either case. |
| Bytes.FoldsMeans | proxy/masking_filter.go:74-85 | A text without capitals is found exactly where the stream has it, letter by letter in either case. |
| PhraseAutomaton.LongestSuffixStep | proxy/semantic_filter.go:122-143 | Over the prefixes of all phrases, the longest suffix of a text plus one byte depends only on the longest suffix of the text: the reason a single transition table can work. |
| PhraseAutomaton.LongestSuffixMaximal | proxy/semantic_filter.go:122-143 | Every phrase prefix that ends a text is a suffix of the longest one, so nothing is missed by keeping only that one. |
| PhraseAutomaton.MeaningOfLongest | proxy/semantic_filter.go:122-143 | Which blocked, exception and weighted phrases end at a text, and their total score, are the same for the text and for its longest suffix that starts a phrase. |
| PhraseAutomaton.Inherit | proxy/semantic_filter.go:133-140 | What ends at a node is what the node owns plus what ends at its fail target: inheriting once from the fail target is enough. |
| PhraseAutomaton.WalkIsLongestSuffix | proxy/semantic_filter.go:80-144 | From the root, any text leads the finished table to the node that spells the longest suffix of the text that is a prefix of some phrase. |
| PhraseAutomaton.WalkValues | proxy/semantic_filter.go:96-143 | At that node `hard` (`excpt`) holds iff a blocked (exception) phrase ends there, `score` is the `int32` of the sum with multiplicity of all weights ending there, and the reported phrase is non-empty exactly when a phrase ends there and then ends there itself. |
| PhraseFilters.PhraseFilter.constructor | proxy/semantic_filter.go:57-60 | An empty filter is the trie of no phrases. |
| PhraseFilters.PhraseFilter.AddPhrase | proxy/semantic_filter.go:80-102 | Growing the table in place turns the trie of a phrase list into the trie of the list with one phrase more: exactly one node per prefix, own flags, own score with multiplicity. |
| PhraseFilters.PhraseFilter.SeedQueue | proxy/semantic_filter.go:114-121 | After the first loop the root's row is complete and the queue holds exactly the one-byte nodes, final in value. |
| PhraseFilters.ShorterDone | proxy/semantic_filter.go:122-143 | Breadth-first order: when a node leaves the queue, every node with a shorter spelling is already complete. |
| PhraseFilters.FailTarget | proxy/semantic_filter.go:126-134 | While a node's row is completed, the row of its fail target already leads to the longest proper suffix, whose values are final. |
| PhraseFilters.InheritNode | proxy/semantic_filter.go:133-140 | Merging flags, score and phrase from the fail target makes a node's own values its final values. |
| PhraseFilters.PhraseFilter.CompleteByte | proxy/semantic_filter.go:125-141 | One byte of one row: a present child gets its fail link and final values and is queued, an absent one takes over the fail target's transition; all loop facts are kept. |
| PhraseFilters.PhraseFilter.CompleteNode | proxy/semantic_filter.go:123-142 | One queued node: its row becomes complete and its children join the queue in breadth-first order. |
| PhraseFilters.PhraseFilter.BuildFailures | proxy/semantic_filter.go:113-144 | In place, and in finitely many queue steps, the trie becomes the complete automaton of the same phrases. |
| PhraseFilters.NewPhraseFilter | proxy/semantic_filter.go:53-78 | An error exactly for bad settings; otherwise the automaton of exactly the blocked, weighted and exception phrases given. |
| PhraseStreams.AtStep | proxy/semantic_filter.go:223-255 | One scanner step: node, score and exception register become those of the text one byte longer, and the scanner's two tests decide whether that offset blocks. |
| PhraseStreams.NoPhrases | proxy/semantic_filter.go:223-259 | A table with only its root belongs to a list without a non-empty phrase, and then no stream ever blocks. |
| PhraseStreams.PhraseStream.MatchChunk | proxy/semantic_filter.go:214-260 | The chunk is read up to and including the first blocking offset of the stream so far, or whole; the phrase reported on a block is non-empty and ends there; registers and length are those of the byte-by-byte scan. |
| PhraseStreams.ScanChunkIs | proxy/semantic_filter.go:200-260 | That scan, as a function of the registers, goes through a chunk iff nothing blocks by its end, and otherwise ends at the first block of the whole stream. |
| PhraseStreams.PhraseStream.ProcessChunk | proxy/semantic_filter.go:200-212 | Output is the chunk up to the first blocking offset of the whole stream, or the chunk; a block lets at least one byte through; an observing stream changes nothing. |
| PhraseStreams.PhraseStream.Decision | proxy/semantic_filter.go:181-186 | On a stream that does not merely observe, a block is reported iff some offset of the stream blocks; the report then names the kind of the first block and a non-empty phrase that ends there. |
| PhraseStreams.PhraseStream.LogDecision | proxy/semantic_filter.go:188-198 | An observing stream reports suppression iff an exception phrase occurred, and otherwise a match iff some offset would have blocked. |
| PhraseStreams.Feed | proxy/semantic_filter.go:200-260 | For every chunking the output is the stream through the first blocking offset, or the whole stream if there is none; with room for the scores this is the unbounded reading. |
| PhraseStreams.BlocksMeans | proxy/semantic_filter.go:223-255 | In plain words: a text is blocked iff no exception phrase has ended in it, letters in either case, and a blocked phrase ends where it ends or the weights, each as often as its phrase occurs, reach a positive threshold. |
| PhraseStreams.CumulativeIsWeighed | proxy/semantic_filter.go:242-254 | The score added up offset by offset is the sum over the phrases of weight times number of occurrences. |
| PhraseStreams.CaseBlindBlock | proxy/semantic_filter.go:214-267 | Streams that differ in the case of letters only are blocked at the same offset, or neither is. |
| PhraseStreams.FeedTwins | proxy/semantic_filter.go:200-267 | Two scanners of the same phrases, each fed such a stream in any chunks, let the same number of bytes through. |
| PhraseStreams.ScannerExact | proxy/semantic_filter.go:214-260 | For all weights and thresholds, what the scanner blocks: no exception so far, and a blocked phrase or an `int32` sum of the phrase scores that passes the `int32` threshold. |
| PhraseStreams.BlocksAgree | proxy/semantic_filter.go:222-254 | For every threshold, read as `int32`, and all non-negative weights: at the first offset where either could block, the scanner misses exactly the scores that overflow and do not land above the threshold again. |
| PhraseStreams.FirstBlockExact | proxy/semantic_filter.go:222-254 | The scanner blocks where the unbounded reading with the threshold cut to `int32` first does iff a phrase is blocked outright there, the score fits in `int32`, or the overflowing sum lands above the threshold again; the last is impossible when the weights together fit. |
| PhraseStreams.NoBlockKept | proxy/semantic_filter.go:214-260 | A stream the unbounded reading with the threshold cut to `int32` lets through is let through. |
| PhraseStreams.FalseBlockIff | proxy/semantic_filter.go:222-254 | A stream that the threshold as set does not block is stopped iff nothing in it is blocked outright or excepted and its sum, below that threshold, passes the `int32` one. |
| PhraseStreams.FalseBlockNeedsCut | proxy/semantic_filter.go:54-56 | That happens only with a threshold beyond `int32`, which the constructor accepts, and only if it is still positive when cut. |
| PhraseStreams.ThresholdCut | proxy/semantic_filter.go:222 | With a threshold of 2^32 + 5 a stream of score 5 is stopped, and another one byte before the phrase that is blocked. |
| PhraseStreams.RoomyExact | proxy/semantic_filter.go:53-78 | When threshold and total weight leave room, scanner and unbounded reading block every stream at the same offset. |
| PhraseStreams.OverflowMissed | proxy/semantic_filter.go:242-254 | A three-byte stream whose score passes the threshold and is not blocked. |
| PhraseStreams.WeightsMissed | proxy/semantic_filter.go:96-98 | Two weights of one phrase that overflow together are not blocked, against a threshold of 1. |
| HtmlText.OneStepFallback | proxy/html_filter.go:157-172 | When a needle's first byte occurs nowhere else in it, falling back to 0 or 1 still gives the longest needle prefix that ends the text. |
| HtmlText.SkipIsSearch | proxy/html_filter.go:157-172 | While the closing needle has not occurred, case folded, in script or style content, the matcher's counter is that longest prefix and nothing is visible. |
| HtmlText.SkipEndsAtNeedle | proxy/html_filter.go:157-172 | The byte that completes the first occurrence of the closing needle ends the skipping, and no earlier byte does. |
| HtmlText.VisibleConcat | proxy/html_filter.go:55-73 | The visible bytes of two pieces are those of the first followed by those of the second read from where the first stopped: chunk boundaries are invisible. |
| HtmlText.HtmlTextFilter.ConsumeByte | proxy/html_filter.go:55-81 | The fields move as the tokenizer's step says and the byte is emitted iff a reader would see it. |
| HtmlText.HtmlTextFilter.ConsumeTag | proxy/html_filter.go:83-127 | Inside a tag: quotes, tag name, comment start and tag end, including when script or style skipping begins. |
| HtmlText.HtmlTextFilter.ConsumeComment | proxy/html_filter.go:129-155 | The comment counter moves by dashes and any `>` ends the comment. |
| HtmlText.HtmlTextFilter.ConsumeSkippedContent | proxy/html_filter.go:157-172 | The needle counter advances, falls back to 0 or 1, or ends the skipping. |
| HtmlText.HtmlTextFilter.ProcessChunk | proxy/html_filter.go:38-53 | For every chunking the raw bytes pass verbatim up to the raw offset of the visible byte at which the phrase filter blocks the visible text. |
| HtmlDocument.OpenTagRun | proxy/html_filter.go:75-127 | A whole tag, whatever its attributes quote, shows nothing and leaves the tokenizer outside tags, skipping exactly after an opening script or style tag. |
| HtmlDocument.CommentSegment | proxy/html_filter.go:129-155 | A comment without `>` in its body shows nothing and ends at its `>`. |
| HtmlDocument.ClosingNeedle | proxy/html_filter.go:157-172 | Content without the closing needle, followed by it, ends skipping exactly at the needle's end: no occurrence straddles. |
| HtmlDocument.VisibleOfRender | proxy/html_filter.go:55-172 | What a rendered document of text, tags, comments, scripts and styles shows is the text of its text segments, in order. |
| HtmlDocument.ScriptHides | proxy/html_filter.go:75-176 | A script or style element written out, its name in any case, any white space and a quoted attribute that may hold `>`: nothing shows up to `</script>` or `</style>` in any case, and the text after it does. |
| HtmlDocument.CommentHides | proxy/html_filter.go:129-155 | `<!`, anything without `>`, `>`: nothing shows, and the text after it does. |
| HtmlDocument.TagHides | proxy/html_filter.go:75-127 | Any other tag of letters, opening or closing, shows nothing and hides nothing after it. |
| DomainTries.SortLabels | proxy/domain_rules.go:189-193 | Whatever order the map yields its keys in, the sorted list holds exactly them, strictly ascending. |
| DomainTries.ReverseSuffix | proxy/domain_rules.go:142-165 | One label list is a suffix of another iff its reverse is a prefix of the other's reverse. |
| DomainTries.DomainTrie.Descend | proxy/domain_rules.go:150-162 | Walking down by labels, last first, finds or hangs the node of the reversed path and keeps the trie well formed. |
| DomainTries.DomainTrie.Add | proxy/domain_rules.go:142-165 | Adds the domain's reversed labels to the rules; after a compilation the builder starts afresh and forgets earlier rules. |
| DomainTries.LinkChild | proxy/domain_rules.go:203-207 | Flattening a child and linking it leaves the parent's reserved transitions in place and the earlier children finished. |
| DomainTries.CloseNode | proxy/domain_rules.go:203-212 | With all children linked, the node's transitions are contiguous, strictly sorted and exactly its children. |
| DomainTries.DomainTrie.BuildFlat | proxy/domain_rules.go:181-213 | The recursive closure appends a subtree to the two arrays, disturbing nothing before it. |
| DomainTries.DomainTrie.Compile | proxy/domain_rules.go:167-219 | Compilation keeps the rules the trie answers for. |
| DomainTries.DomainTrie.BinarySearchTransition | proxy/domain_rules.go:355-372 | Over a strictly sorted stretch the word is found iff it is there. |
| DomainTries.DomainTrie.Follow | proxy/domain_rules.go:336-347 | A label leads on iff the longer path is in the trie, and the node reached is blocked iff that path is a rule. |
| DomainTries.DeadEnd | proxy/domain_rules.go:336-344 | When a label leads nowhere, no rule matches the host, however its remaining labels read. |
| DomainTries.DomainTrie.Search | proxy/domain_rules.go:314-352 | Scanning the host from its end, empty labels skipped, answers whether some rule's labels end the host's labels. |
| DomainTries.DomainTrie.Match | proxy/domain_rules.go:300-353 | Compiled or not, the answer is whether some rule's labels end the host's labels. |
| DomainTries.NewTrie | proxy/domain_rules.go:70-97 | A trie built from domains answers for exactly the domains with at least one label. |
| DomainTries.MatchesIsSuffix | proxy/domain_rules.go:142-219 | So it matches a host iff some added domain's label list is a non-empty suffix of the host's label list. |
| DomainTries.SubdomainsMatch | proxy/domain_rules.go:142-352 | A rule for a name written with dots matches the name and its subdomains, and nothing else. |
| Masking.MaskingStream.MaskPending | proxy/masking_filter.go:59-72 | The two loops compute the left-to-right, phrase-by-phrase masking of the buffer; afterwards no star-free phrase matches anywhere in it, and every byte that changed lies in a stretch that read as a phrase and is all stars. |
| Masking.MaskedOnce | proxy/masking_filter.go:59-72 | One pass over any text stars whole stretches that read as a phrase and leaves no star-free phrase, however phrases overlap. |
| Masking.FirstPhraseStarred | proxy/masking_filter.go:60-70 | At an offset the first phrase of the list that matches is starred, and no other. |
| Masking.LeftmostFirst | proxy/masking_filter.go:59-72 | The leftmost occurrence is starred first, of the first phrase that has one there, and masking goes on after it. |
| Masking.CoveredIsOccurrence | proxy/masking_filter.go:59-85 | With star-free phrases a byte is covered iff it lies inside a case-insensitive occurrence of a phrase. |
| Masking.NoSurvivorJoins | proxy/masking_filter.go:42-57 | Keeping back one byte less than the longest phrase is enough: nothing survives across the seam. |
| Masking.MaskingStream.ProcessChunk | proxy/masking_filter.go:42-57 | What went out and what is kept back, together, are the input with covered bytes starred and no survivor; never more than the look-back stays, and exactly the look-back once anything has gone out. |
| Masking.MaskingStream.Flush | proxy/masking_filter.go:90-102 | The rest is masked once more and goes out, and the whole output is the masked input. |
| Masking.NewMaskingFilter | proxy/masking_filter.go:10-24 | Exactly the non-empty phrases are kept, and the look-back is measured by the longest of them; without any the stream passes through. |
| Masking.MaskAll | proxy/masking_filter.go:10-102 | For every phrase list and every chunking: same length, each byte kept or starred, every starred byte in a stretch as long as a phrase that reads as it in the input and is all stars in the output, no star-free phrase left anywhere; the output is that of the streaming function, with the longest phrase as measure. |
| Masking.OutputMasks | proxy/masking_filter.go:10-102 | The streaming function stars whole stretches that read as a phrase and leaves no star-free phrase, for every phrase list and chunking. |
| Masking.OneOccurrence | proxy/masking_filter.go:10-102 | A stream in which one of the phrases, all star-free, occurs once: for every chunking the bytes before it, as many stars as it has bytes, the bytes after it. |
| Masking.CaseBlindMask | proxy/masking_filter.go:42-102 | Streams cut alike that differ in case only are starred at the same places. |
| Masking.StarredPhraseSurvives | proxy/masking_filter.go:42-102 | For every folded phrase with a star and every byte it leaves out: with that byte masked as well, the stream that is the phrase with its stars filled in comes out as the phrase. |
| Masking.SafeIffStarFree | proxy/masking_filter.go:10-102 | A phrase that leaves some byte out never survives, in any list and any chunking, iff it is star-free. |
| Injection.StartsInPending | proxy/html_injection_filter.go:37-47 | With the last six bytes kept back, a closing body tag can only start in what is kept. |
| Injection.InjectionStream.InjectPending | proxy/html_injection_filter.go:50-64 | Injects at the first closing body tag of the whole stream, or reports there is none yet. |
| Injection.InjectionStream.ProcessChunk | proxy/html_injection_filter.go:28-48 | Conserves the stream: output plus kept bytes are the input, with the banner in its place once it is due. |
| Injection.InjectionStream.Flush | proxy/html_injection_filter.go:66-74 | The complete output is the input with the banner before the first closing body tag, or the input. |
| Injection.InjectAll | proxy/html_injection_filter.go:11-74 | The same for a whole stream in any chunks, and an empty banner changes nothing. |
| Injection.InjectionUnique | proxy/html_injection_filter.go:28-74 | There is only one such output, so chunking cannot matter. |
| Injection.InjectsBefore | proxy/html_injection_filter.go:28-74 | With `</body>` in any case and no `<` before it, the output is the bytes before, the banner, the tag and the rest. |
| Injection.CaseBlindInjection | proxy/html_injection_filter.go:28-74 | Streams that differ in case only get the banner at the same place, or neither gets one. |
| Substitution.PadOrTruncate | proxy/substitution_filter.go:229-242 | Exactly the target length: the replacement as far as it goes, then stars. |
| Substitution.LiteralPreserves | proxy/substitution_filter.go:171-200 | Same-length replacement keeps the length and every byte outside an occurrence. |
| Substitution.SpansPreserve | proxy/substitution_filter.go:202-225 | Replacing regex spans by as many bytes changes no byte outside the spans. |
| Substitution.SubstitutionStream.SentTouches | proxy/substitution_filter.go:168-227 | In length-preserving mode, over all pieces and all rules, an output byte differs from the input byte at its offset only inside a match. |
| Substitution.SubstitutionStream.Splice | proxy/substitution_filter.go:179-195 | The find-cut-join loop computes leftmost non-overlapping replacement and reports whether there was an occurrence. |
| Substitution.SubstitutionStream.Rewrite | proxy/substitution_filter.go:209-217 | Replacing spans from the last to the first keeps earlier spans in place. |
| Substitution.SubstitutionStream.ApplyRules | proxy/substitution_filter.go:168-227 | Literals then regexes, in order; a match that must block is recorded iff some rule matches and then nothing is rewritten; length is kept in length-preserving mode. |
| Substitution.SubstitutionStream.ProcessChunk | proxy/substitution_filter.go:127-151 | The bytes beyond the window go out as one piece, rewritten; a blocking stream fails exactly if a rule matches that piece, and then no call ever emits anything; the window is kept untouched. |
| Substitution.SubstitutionStream.Flush | proxy/substitution_filter.go:153-166 | The window goes out too; a blocking stream fails exactly if it had failed or a rule matches the window. |
| Substitution.LiteralMeans | proxy/substitution_filter.go:179-195 | Replacing a text is splitting the input at it, leftmost first, into parts that do not have it, and joining them with the replacement. |
| Substitution.OneLiteral | proxy/substitution_filter.go:171-200 | A text that occurs once, by one rule: the bytes before it, the replacement, or with lengths kept as much of it as fits and then stars, and the bytes after it. |
| Substitution.LiteralsInOrder | proxy/substitution_filter.go:171-200 | Several rules act one after the other: each rule works as a single rule on what the rules before it left. |
| Substitution.OneSpan | proxy/substitution_filter.go:202-225 | A regex that matches one span: the same with its expansion, or the expression's own replacement when lengths are not kept. |
| Substitution.SpansFilled | proxy/substitution_filter.go:209-217 | Of several spans each is filled with its own expansion. |
| Substitution.LiteralThenRegex | proxy/substitution_filter.go:168-227 | A regex is asked about the text the literal rule has left. |
| Substitution.OneSubstituted | proxy/substitution_filter.go:127-200 | A text that occurs once in the stream with no cut inside it: for every chunking the stream comes out with just that text replaced. |
| Substitution.OneSpanSubstituted | proxy/substitution_filter.go:127-225 | A regex that matches one span of one piece: the stream comes out with just that span filled. |
| Substitution.PiecesSpell | proxy/substitution_filter.go:127-166 | The pieces a chunked stream is cut into, the window last, spell the stream. |
| Substitution.SubstituteAll | proxy/substitution_filter.go:127-166 | For every chunking the output is what goes out for the pieces: as many bytes out as in when lengths are preserved, and only bytes inside a match differ; with block-on-match the run fails iff some piece has a match, the pieces before the first such piece having gone out unchanged, and otherwise the very same bytes come out. |
| Substitution.WindowFor | proxy/substitution_filter.go:83-100 | The window is the longest search or the widest regex window, or the default if neither has any bytes. |
| Substitution.InsideIffUncut | proxy/substitution_filter.go:127-166 | A stretch of the stream lies inside one piece iff no cut, a window before the end of a chunk, falls strictly inside it. |
| Substitution.SeenIff | proxy/substitution_filter.go:168-200 | A text occurs in some piece iff it occurs in the stream inside one piece. |
| Substitution.LiteralHitIff | proxy/substitution_filter.go:127-200 | With literal rules, for every chunking: some piece has a match iff some rule's text occurs in the stream with no cut strictly inside it. |
| Substitution.StraddlerLeaves | proxy/substitution_filter.go:83-166 | A run, with the window chosen for its one literal, in which the literal leaves a blocking stream. |
| Magic.MagicStream.CommitDecision | proxy/magic_filter.go:110-127 | The decision is taken on the held bytes alone: all of them and the tail go out, or nothing. |
| Magic.MagicStream.ProcessChunk | proxy/magic_filter.go:77-100 | Undecided, everything is held; decided, all or nothing went out as the first 512 bytes demand; fields and answer are those of the step function the chain is built on. |
| Magic.MagicStream.Flush | proxy/magic_filter.go:102-108 | A short stream is decided at its end; everything went out or nothing did. |
| Magic.SniffAll | proxy/magic_filter.go:77-127 | For every chunking the output is the stream, or empty iff its first 512 bytes are of a blocked type. |
| Chains.Chain.ProcessChunk | proxy/masking_filter.go:189-209 | Every stage is given exactly what the stage before put out for the chunk, unless a member blocks or fails in the state its stage brought it to; that member is named, and on a block those behind it are drained into the output. States, output and outcome are those of the chain as one filter. |
| Chains.Chain.RunDownstream | proxy/masking_filter.go:211-236 | After a block the later members see the output until one blocks too; then all are flushed, and the output ends with their tails in order. |
| Chains.FlushDownIsTails | proxy/masking_filter.go:224-235 | Every member behind a block is flushed from its own state, and no tail is lost or reordered. |
| Chains.BlockEndsPassing | proxy/masking_filter.go:211-236 | A member behind a block that blocks too ends the passing: those behind it are only flushed, as they stand. |
| Chains.Chain.Flush | proxy/masking_filter.go:238-274 | Each member is flushed after all that was retained before it has reached it, and the stages become the composition of the members, unless a member on the way blocks or fails or a flush fails; that one is named and what had come out is stated. |
| Chains.Chain.FlushMember | proxy/masking_filter.go:241-271 | One member is flushed and what it kept goes through all members behind it, or the member that would not go on is named; it concerns only what the flushed member had kept. |
| Chains.Chain.Downstream | proxy/masking_filter.go:256-267 | A retained chunk passes through all members behind the one that kept it, or stops at the first that blocks or fails. |
| Chains.FlushStep | proxy/masking_filter.go:241-255 | Flushing a member puts exactly its tail on the way into the next. |
| Chains.PassStep | proxy/masking_filter.go:191-204 | Passing a chunk through a member keeps every stage linked to the one before. |
| Chains.CompositionIs | proxy/masking_filter.go:189-274 | Linked stages are the composition of the members on the input, each run on all that the one before it puts out, flush included. |
| Chains.SmoothMeansNoTrouble | proxy/masking_filter.go:189-274 | If in that composition nobody blocks or fails, nobody does in the chain, at any point of any chunking. |
| Chains.RunChain | proxy/masking_filter.go:189-274 | A whole stream goes through iff nobody blocks or fails in the composition, and then the output is what the last member puts out; otherwise the member that would not go on is named with what it was given. |
| ContentChains.SniffRun | proxy/magic_filter.go:77-127 | As a chain member the sniffer lets chunks through iff they are fewer than 512 bytes or of a type that may pass, and holds or passes all of them. |
| ContentChains.MaskRun | proxy/masking_filter.go:42-57 | As a chain member the masker lets every chunk through, and what it put out and keeps is the masked stream. |
| ContentChains.MembersInert | proxy/masking_filter.go:129-157 | Both meet what a chain asks of its members, so the composition result is not empty. |
| ContentChains.SniffThenMask | proxy/masking_filter.go:129-157 | The composition of the two runs smoothly unless a stream of 512 bytes or more is of a banned type, and its last stage spells the masked stream. |
| ContentChains.FilterContent | proxy/masking_filter.go:129-274 | For every type detector, phrase list and chunking: of a banned type nothing comes out, and a stream of 512 bytes or more is stopped; every other stream comes out whole and masked, with no star-free phrase left in it. |
| ContentChains.SnifferIsSilent | proxy/relay.go:1412-1463 | A reader in front of the sniffer always delivers exactly what is due, however end of file is reported. |
| PhraseChains.PhraseRun | proxy/semantic_filter.go:200-260 | As a chain member the phrase filter lets chunks through, unchanged, iff nothing blocks in the stream they spell. |
| PhraseChains.SmoothComposition | proxy/masking_filter.go:129-157 | The chain NewFilter builds, with a sniffer only if a type is banned and a masker only if there is something to mask, composes smoothly iff no long stream's type is banned and nothing blocks what passes the sniffer, and the last stage then spells the masked stream. |
| PhraseChains.ShownAtEnd | proxy/masking_filter.go:241-267 | A block during the flush concerns the whole of a short stream, none of which had gone on before. |
| PhraseChains.DrainMasks | proxy/masking_filter.go:211-236 | What is drained after a block is masked, together with what had already come out. |
| PhraseChains.PhraseRefused | proxy/masking_filter.go:189-274 | A stream a phrase blocks comes out through its first block: as it is if there is a sniffer and the stream is shorter than 512 bytes, otherwise masked. |
| PhraseChains.FilterPhrases | proxy/masking_filter.go:129-274 | For every detector, set of banned types, phrase automaton, mask list and chunking, on the chain NewFilter builds: nothing of a banned type; a stream nothing blocks whole and masked; a blocked one through its first block, masked iff it is not a short one behind a sniffer with something to mask before the block. |
| PhraseChains.MaskedIff | proxy/masking_filter.go:238-274 | No star-free phrase is left in the output iff it is not the case that a type is banned and the stream is short, of a type that may pass and blocked after one. |
| PhraseChains.ShortBlockUnmasked | proxy/masking_filter.go:262-266 | A run in which "ab", with a type banned, "a" to be masked and "b" blocked, comes out as it is. |
| PhraseChains.ChainBlock | proxy/masking_filter.go:189-274 | In whatever state, a chain that blocks without putting anything out has nothing left to flush. |
| PhraseChains.ChainIsSilent | proxy/relay.go:1412-1463 | A reader in front of the whole chain always delivers exactly what is due, however end of file is reported. |
| InspectReaders.ServedIsDue | proxy/relay.go:1412-1463 | The reader delivers what is due iff no chunk is reached that ends the source, blocks, yields nothing and leaves a flush that is not silent. |
| InspectReaders.BareEofIsDue | proxy/relay.go:1412-1463 | A source that reports end of file without data always gets what is due: outputs in order, cut at the first block or failure, otherwise followed by one flush. |
| InspectReaders.SilentEngineIsDue | proxy/relay.go:1412-1463 | So does any source in front of an engine that has nothing to flush after a block without output. |
| InspectReaders.AllDelivered | proxy/relay.go:1412-1463 | Through a filter that changes nothing, and one that keeps all until it is flushed, the whole source is delivered. |
| InspectReaders.FlushedAfterBlock | proxy/relay.go:1428-1440 | For an engine that keeps a byte back it does not: the byte of a blocked stream is delivered after the block. |
| InspectReaders.InspectReader.Inspect | proxy/relay.go:1417-1427 | The chunk goes through the scratch buffer and the engine; the answer, which may point into that buffer, is what waits to be delivered. |
| InspectReaders.InspectReader.FlushEngine | proxy/relay.go:1448-1463 | The engine is flushed at most once, its output replaces what waits, and its error is passed on. |
| InspectReaders.InspectReader.Read | proxy/relay.go:1412-1446 | For every read size: the next bytes due, at least one and no more than asked; or end of file exactly when everything was delivered; or an error exactly when everything was delivered and the engine or its flush failed. The scratch buffer is refilled only when no undelivered output points into it. |
| InspectReaders.InspectReader.Deliver | proxy/relay.go:1443-1445 | The front of what waits goes to the caller, at least one byte and no more than asked. |
| InspectReaders.ReadAll | proxy/relay.go:1412-1463 | Reads of any positive sizes add up to exactly what is served, then end of file, or an error iff the run ends in one. |
| Lru.OperationsKeepShape | pki/leaf.go:269-301 | No operation repeats a key or outgrows the capacity. |
| Lru.PutEvictsOldest | pki/leaf.go:278-294 | A put is found, every other key keeps its value, and the only key that can be lost is the least recently used. |
| Lru.TouchOnlyReorders | pki/leaf.go:269-276 | A hit changes no stored value, only the order, and becomes most recent. |
| Lru.RemoveOnlyKey | pki/leaf.go:296-301 | Removing a key removes it and nothing else. |
| Lru.StepRanked | pki/leaf.go:269-301 | Against a law of time stamps, by which a hit or a store is a use and a store on a full cache loses a key that was used longest ago: every operation keeps the sequence in strictly descending order of last use. |
| Lru.Replay | pki/leaf.go:240-335 | Any operations from an empty table: it holds what that law leads to, in strictly descending order of last use. |
| Lru.RecencyList.PushFront | pki/leaf.go:303-313 | Both directions of links spell the list with the node in front. |
| Lru.RecencyList.MoveFront | pki/leaf.go:315-321 | Both directions of links spell the list with the node moved to the front. |
| Lru.RecencyList.Unlink | pki/leaf.go:323-335 | Both directions of links spell the list without the node, wherever it was. |
| Lru.LruTable.Get | pki/leaf.go:269-276 | Refines the sequence: the stored value is returned and a hit moves to the front. |
| Lru.LruTable.Put | pki/leaf.go:278-294 | Refines the sequence: overwritten in place and moved, or put in front with the tail evicted. |
| Lru.LruTable.Remove | pki/leaf.go:296-301 | Refines removal from the sequence. |
| Lru.LruTable.GetOrCreate | proxy/rate_limiter.go:41-64 | The limiter kept for an address, made most recent, or the new one, kept as by a put. |
| Lru.LruTable.Reset | proxy/rate_limiter.go:66-72 | The table is empty and consistent. |
| LeafCache.SingleFlight | pki/leaf.go:167-225 | In every state of every run two generations in flight are for different hosts, a cached certificate belongs to its key, and a waiter is given the owner's outcome for its own host. |
| LeafCache.NeverStranded | pki/leaf.go:167-225 | In every state of every run a caller that waits can go on or the one it waits for is generating, and a pending host is one in flight. |
| LeafCache.HitReturned | pki/leaf.go:173-185 | A cached certificate that is still valid is what the call gets, whatever others do meanwhile. |
| LeafCache.PublishedOrForgotten | pki/leaf.go:214-225 | A generation that succeeded is cached and no longer pending; one that failed leaves nothing behind. |
| LeafCache.MissGenerates | pki/leaf.go:189-203 | A host neither cached nor pending is generated; a pending one is waited for. |
| LeafCache.StepKeeps | pki/leaf.go:167-225 | Every atomic step of `Get` keeps the protocol invariant. |
| LeafCache.RunKeeps | pki/leaf.go:167-225 | So every state of every run has it. |
| LeafCache.OneSuccessPerHost | pki/leaf.go:167-225 | As long as no step takes a host's certificate out of the cache, the host is issued at most one, whatever happens to other hosts. |
| LeafCache.IssuedTwiceIff | pki/leaf.go:167-225 | In every run a host is issued twice iff some step takes its certificate out of the cache, as expired or to make room, and a later step issues it. |
| LeafCache.StaleDropsWhatIsThere | pki/leaf.go:184-186 | A thread that saw an expired hit drops whatever is cached when it locks again, however fresh. |
| LeafCache.OneExpiryTwoGenerations | pki/leaf.go:132-134 | A run in which one expiry costs two generations, against the comment. |
| UpstreamPools.PopConserves | proxy/upstream_pool.go:102-124 | Popping loses nothing: the list is the rest, the entry taken and the entries closed, in order. |
| UpstreamPools.PopTakesNewest | proxy/upstream_pool.go:102-124 | In last-used order the entry taken is the most recently used one, and none is taken only when all have expired. |
| UpstreamPools.PushThenPop | proxy/upstream_pool.go:102-151 | What is put back is what is taken next, while it is fresh, and the others keep their places. |
| UpstreamPools.PushKeepsNewest | proxy/upstream_pool.go:126-151 | Never more than the maximum are kept, and the one given up is the one used longest ago. |
| UpstreamPools.UpstreamPool.TakeIdle | proxy/upstream_pool.go:102-124 | The loop pops that entry, closes exactly the expired ones it passed and touches no other key. |
| UpstreamPools.UpstreamPool.Release | proxy/upstream_pool.go:126-151 | A reusable, drained connection goes to the end of its own list, the oldest making room; anything else is closed. |
| UpstreamPools.UpstreamPool.CloseIdle | proxy/upstream_pool.go:153-165 | Every pooled connection of every key is closed and nothing stays idle. |
| RelayLoop.Relay.ReleaseCurrent | proxy/relay.go:169-181 | Whatever is held is released, once, however often it is called. |
| RelayLoop.Relay.Ensure | proxy/relay.go:330-371 | A lease is taken only when none is held; a failed attempt takes nothing. |
| RelayLoop.Relay.Iterate | proxy/relay.go:245-595 | One pass of the loop does to the connection exactly what its event demands: acquire if none is held, use it for HTTP or WebSocket, give it back reusable, not reusable, or keep it; always within the discipline. |
| RelayLoop.RunObeys | proxy/relay.go:156-595 | Whatever its events, a run acquires at most once, uses only what it holds, and ends holding nothing. |
| RelayLoop.HoldingShape | proxy/relay.go:164-184 | A run that holds a connection acquired it first and has only used it since. |
| RelayLoop.FinishedShape | proxy/relay.go:164-184 | A disciplined run that has ended took nothing, or took one connection and released exactly that one exactly once. |
| RelayLoop.Relay.Run | proxy/relay.go:156-595 | Every run does exactly what its events demand, ended by the deferred release; it took nothing or released its one lease exactly once, and not as reusable after WebSocket use. |
| RelayLoop.EveryRunOneLease | proxy/relay.go:164-184 | For all event sequences: nothing taken, or one lease, used, and released exactly once, last. |
| RelayLoop.TraceMeans | proxy/relay.go:156-595 | From the events alone: no lease, no action; otherwise the first lease is acquired, used by every exchange and hand-over up to the first event that ends the run, and released, as reusable iff that event is a clean end. |
| RelayLoop.ReusableIffCleanEnd | proxy/relay.go:251-592 | A connection goes back as reusable iff some event took one and the first event that ends the run is a client that fell silent or a last exchange it asked for, with the upstream reader drained. |
| RelayLoop.AbortedNeverReusable | proxy/relay.go:483-569 | An exchange cut off with a connection in hand, or an answer of the relay's own, ends the run: no use after it, nothing reusable, and later events do not matter. |
| RelayLoop.ReleasesOccur | proxy/relay.go:329-385 | Both kinds of release occur: reusable after HTTP and a silent client, not reusable when the same connection went on to WebSocket. |
| LeaseSystem.PopGood | proxy/upstream_pool.go:102-124 | Taking from a bounded, ordered list without repetition leaves one, and the pieces share no connection. |
| LeaseSystem.PushGood | proxy/upstream_pool.go:126-151 | Putting a connection back keeps the list bounded, ordered and without repetition. |
| LeaseSystem.TakeKeeps | proxy/upstream_pool.go:62-124 | Acquiring from the idle list keeps the system invariant. |
| LeaseSystem.GiveBackKeeps | proxy/upstream_pool.go:126-151 | Releasing keeps it. |
| LeaseSystem.CloseIdleKeeps | proxy/upstream_pool.go:153-165 | Closing all idle connections keeps it. |
| LeaseSystem.RunKeeps | proxy/upstream_pool.go:62-165 | Every state of every interleaving has it. |
| LeaseSystem.EveryConnectionInOnePlace | proxy/upstream_pool.go:62-165 | In every state each dialled connection is leased to exactly one relay, or idle under its own key, or closed; idle lists stay within the limit and in last-used order. |
| LeaseSystem.WebSocketNeverIdle | proxy/relay.go:379-385 | Once a relay has used a connection for WebSocket, it is idle in no later state of any interleaving; relays do what the relay loop does, nothing else. |
| LeaseSystem.ReuseHappens | proxy/upstream_pool.go:62-151 | A connection given back as reusable is what the next relay for the same upstream gets, while it is fresh. |
| LeaseSystem.UnfitIsClosed | proxy/upstream_pool.go:126-132 | One that is not reusable, or not drained, is closed. |
| LeaseSystem.TakeMeans | proxy/upstream_pool.go:62-124 | What a relay takes was idle under its own key and not too long; otherwise it dials. |
| LeaseSystem.ActionIsStep | proxy/upstream_pool.go:62-165 | The next action of any relay is an enabled step of the system, so the interleavings leave no relay behaviour out. |
| LeaseSystem.EveryRelayRunHappens | proxy/relay.go:156-595 | For any events there is a run of the system in which a relay does all that its loop does with them. |
| ConnLimiters.UnitsChange | proxy/server.go:1109-1174 | When one slot of one thread changes, each semaphore's outstanding units change by that unit at most. |
| ConnLimiters.TakeStep | proxy/server.go:1109-1160 | Taking a unit, by a permit or by the saturation probe on the limiter it read before, keeps the count exact and within capacity. |
| ConnLimiters.GiveStep | proxy/server.go:1127-1174 | Giving a unit back keeps the count exact, and the semaphore it goes to holds at least that one unit. |
| ConnLimiters.StoreStep | proxy/server.go:440-474 | Replacing the limiter on reload leaves the counts of all semaphores, old and new, exact. |
| ConnLimiters.HeldIsUnits | proxy/server.go:95-104 | In every state of every interleaving of acquire, failure, timeout, release, probe and reload, a limiter replaced between its reading and its use included, each semaphore's held count is the number of permits and acquirers that took that very semaphore, not negative and within capacity. |
| ConnLimiters.ProfileBound | proxy/server.go:1109-1160 | However requests and reloads interleave, a limited profile never has more permits out than its capacity. |
| ConnLimiters.GlobalBound | proxy/server.go:1109-1160 | Nor a limiter more than its own. |
| ConnLimiters.RequestKept | proxy/server.go:1109-1174 | A request is served for the profile it asked for, on the limiter that was current when it asked. |
| ConnLimiters.ReloadMeans | proxy/server.go:455-474 | A reload of the profiles publishes those with a positive limit, each with that capacity and nothing out, and keeps the global limit. |
| ConnLimiters.MaxMeans | proxy/server.go:440-453 | A new maximum counts from zero, is at least one, and leaves the profiles their semaphores. |
| ConnLimiters.QuietMeansZero | proxy/server.go:1109-1174 | When every thread is done, every semaphore ever made is back to zero. |
| ConnLimiters.StartsWell | proxy/server.go:95-104 | The state a server starts in satisfies the invariant, so the runs are not empty. |
| AuditScopes.AuditScope.CopyFresh | proxy/audit_scope.go:188-194 | The new map is the unexpired part of the old one. |
| AuditScopes.AuditScope.FindOldest | proxy/audit_scope.go:197-204 | The scan finds an entry no other is older than. |
| AuditScopes.AuditScope.Evict | proxy/audit_scope.go:196-206 | At capacity exactly one oldest entry goes; below capacity none does. |
| AuditScopes.AuditScope.Publish | proxy/audit_scope.go:184-208 | The published map is the refreshed old one, with at most one oldest entry evicted, and the new entry. |
| AuditScopes.LossesExplained | proxy/audit_scope.go:184-208 | A publication loses an entry only by overwrite, expiry or oldest-first eviction. |
| AuditScopes.PublicationMeans | proxy/audit_scope.go:184-208 | Left are the new entry and old ones within their time, all of them if there is room for one more; what is evicted was seen no later than any entry left. |
| AuditScopes.DecideAlone | proxy/audit_scope.go:128-162 | A call nobody interrupts: a root is a root, a listed host within its time a dependency of its root, otherwise what the headers lead to. |
| AuditScopes.HeadersAnswer | proxy/audit_scope.go:245-267 | A host not listed is a dependency of the root the Origin leads to, else of the one the Referer leads to, else out of scope. |
| AuditScopes.LookupMeans | proxy/audit_scope.go:128-267 | Whatever others do between its lookups, each answer of a call is what the map says at that moment. |
| AuditScopes.PublicationBounded | proxy/audit_scope.go:196-206 | The map never exceeds the configured maximum. |
| AuditScopes.StepKeeps | proxy/audit_scope.go:128-208 | Every step of `Decide`, `RegisterDependency` and the clock keeps the invariant. |
| AuditScopes.ScopeSound | proxy/audit_scope.go:128-267 | In every state of every interleaving each entry's root matches a configured root, through any chain of Origin and Referer propagation, no key is itself a root, the map is within its maximum, and every decision names configured roots only. |
| AuditScopes.RunLossesExplained | proxy/audit_scope.go:184-208 | Between any two consecutive states an entry is lost only by overwrite, expiry or oldest-first eviction. |
| Intervals.PiecesMinutes | rules.go:706-715 | What is left of an interval covers exactly its minutes outside the block. |
| Intervals.TrimmedMinutes | rules.go:705-716 | The intended pass keeps exactly the minutes outside the block. |
| Intervals.PassMinutes | rules.go:704-716 | The pass as it runs keeps exactly the minutes outside the block of the intervals before the point where it first overtakes itself. |
| Intervals.PassCompleteIff | rules.go:704-716 | It is complete iff the intervals it never read offer nothing more. |
| Intervals.CutIsSplit | rules.go:704-716 | On separate intervals it overtakes itself iff the block splits an interval before the last, and right behind that interval. |
| Intervals.LosesIffSplits | rules.go:704-716 | On separate intervals a pass loses minutes iff the block splits an interval before the last. |
| Intervals.SubtractMinutes | rules.go:701-720 | Nothing blocked survives, nothing is invented, and what else goes missing is exactly what some pass skipped. |
| Intervals.InOrderIsExact | rules.go:701-720 | With one window and the blocks in order, subtraction is exact. |
| Intervals.AfternoonLost | rules.go:701-720 | With two blocks out of order, the rest of the day is lost. |
| Intervals.DayLost | rules.go:701-720 | A third block over the morning leaves nothing, though no block touches the afternoon. |
| Intervals.Keep | rules.go:706-715 | The loop body appends what is left of the interval, in place while there is room, else in a larger array. |
| Intervals.Pass | rules.go:704-716 | The pass, writing over the slice it reads, yields that result whatever spare capacity the slice has. |
| Intervals.SubtractIntervals | rules.go:701-720 | All passes in turn. |
| Clock.ClockRoundTrip | rules.go:722-770 | Printing a minute of the day and parsing it again gives it back, 24:00 included. |
| Clock.WeekdayRoundTrip | rules.go:744-763 | Printing a weekday and parsing it again gives it back. |
| Clock.ClockMeans | rules.go:722-742 | Hours and minutes written in decimal, padded or not: a time of day, the end of the day for 24:0, or an error. |
| Clock.WeekdayMeans | proxy/schedule_rules.go:94-113 | A weekday is its full name, its three letters, "tues", "thur" or "thurs", in any case, trimmed; nothing else is. |
| Clock.TrimMeans | rules.go:680-724 | Trimming takes white space off both ends and nothing else. |
| Schedules.BlockedIntervalsByDay | rules.go:610-629 | Each day's list holds the bands of that day and what runs over from the day before, past Saturday too, in the order the loop appends them. |
| Schedules.BlockedMeans | rules.go:610-629 | A minute is in a day's list iff a band bans it, wraps past midnight included. |
| Schedules.BannedByMeans | rules.go:610-629 | A band bans the minutes of the week from its start for as long as it lasts, on each of its days, Saturday night leading into Sunday. |
| Schedules.WindowMeans | rules.go:631-678 | A window written out is open from its start to its end on the day it names, or on every day if it names none. |
| Schedules.WindowDays | rules.go:662-678 | Fails iff a weekday is invalid; otherwise marks exactly the days named, or all. |
| Schedules.AllowedIntervalsByDay | rules.go:631-660 | Fails iff a window of the profile is invalid; otherwise lists the profile's windows of each day, or whole days if it has none. |
| Schedules.AllowedMeans | rules.go:631-660 | A minute is in the list iff it is in one of the profile's windows, or it has none. |
| ScheduleRules.EntryMeans | rules.go:575-580 | The window printed for an interval compiles and reads back as that interval on that day. |
| ScheduleRules.ProfileNames | rules.go:587-608 | The trimmed, non-empty profile names, or the default profile. |
| ScheduleRules.EmitProfile | rules.go:569-583 | Writes the windows left on each day of a profile. |
| ScheduleRules.RestrictByTimeBands | rules.go:560-585 | Fails iff a window of a named profile is invalid; otherwise the restricted schedule, which always compiles. |
| ScheduleRules.RestrictedMeans | rules.go:560-585 | A minute is covered by the restricted schedule iff the profile is named and the minute is left. |
| ScheduleRules.RestrictedAllows | rules.go:560-660 | A profile that keeps a window is let through exactly inside its own windows, outside every banned band, at the minutes subtraction did not drop. |
| ScheduleRules.KeepsWindowIff | rules.go:560-585 | A profile keeps a window iff it is named and some minute of its week is in its hours, not banned and not dropped. |
| ScheduleRules.BansHoldIff | proxy/schedule_rules.go:46-49 | The bands hold for a profile iff it is named and some minute of its week remains, or nothing is banned. |
| ScheduleRules.FullBanOpens | proxy/schedule_rules.go:46-49 | A profile whose every minute is banned is let through always. |
| ScheduleRules.WholeWeekBannedYetOpen | proxy/schedule_rules.go:46-49 | For example with one band over the whole week. |
| ScheduleRules.MorningBannedYetOpen | proxy/schedule_rules.go:46-49 | Three bands that leave the afternoon alone, and the default profile is let through at every minute, the banned morning included. |
| ScheduleRules.CompileWindow | proxy/schedule_rules.go:63-92 | Fails iff the window is invalid; otherwise covers what the window covers. |
| ScheduleRules.NewScheduleRules | proxy/schedule_rules.go:27-40 | Fails iff a profile is empty or a window invalid; otherwise says, profile by profile, what the windows say. |
| ScheduleRules.Allowed | proxy/schedule_rules.go:42-61 | Answers for every list of windows the rules represent. |
| ScheduleRules.LoadSchedule | rules.go:296-302 | With bands, a schedule that can be restricted always compiles, to rules that represent the restriction. |

## Left out

- Sockets, TLS, x509, HTTP/1, HTTP/2 and HTTP/3 parsing, compression, antivirus, metrics, logging and callbacks: dial, generate, close and match reports are abstract steps or values.
- Configuration, list-file and environment parsing, the policy precedence in `DomainRules.Decision`, header handling and block pages: each is settled by reading one branch.
- Unicode: phrases, hosts and profile names arrive normalised; trimming and lower-casing in clocks and weekday names cover ASCII and Latin-1 white space only.
- `semaphore.Weighted`, `regexp`, `rate.Limiter` and `detectMagicType` are abstract: a counter with a capacity, a function returning ascending disjoint spans, a value, and a function of the first bytes.
- The Go memory model: goroutines are interleavings of the atomic steps that locks, channels and atomic pointers make.
- Table sizes: node and transition numbers are unbounded, where the source stores `int32` and `uint32` indexes.
- The trie builder's pointer nodes are indexes into a table of allocated nodes.
- The relay's dial-only and given-connection modes and the HTTP/2 hand-off; only leases from the pool are modelled.
- The phrase a stream reports is the normalised text of a phrase, not the configured spelling.
- Errors of a body source other than end of file.
- Chains.Chain.Flush: when a member blocks during a flush the later members are skipped, as in the source, so no composition is claimed then; the model calls that outcome `Stopped`, where the source returns the bytes without an error and only the member's own decision tells.
- Chains.RunChain: members are deterministic, and an empty chunk leaves a member that has let everything through as it is; `ContentChains.MembersInert` and `PhraseChains.PhraseInert` show this for three filters, and the contracts of the others say it of an empty chunk.
- ContentChains.FilterContent: keeps the sniffer when no type is banned, where the source leaves it out and the same comes out.
- PhraseChains.FilterPhrases: the configurations with blocked phrases, with or without banned types and masked phrases; the observing phrase filter and the substituter are stated on their own.
- Substitution.SubstituteAll: does not promise that every occurrence is replaced or blocked, because one that a cut falls into is split; which ones is stated for literal rules, for regexes it depends on the expression.
- Masking.MaskAll: does not promise the same stars for every chunking, because phrases of different lengths compete. A phrase with a star in it that contains every byte the folding leaves as it is is neither shown safe nor shown to survive.
- HtmlDocument.CommentSegment: comments end at any `>`, not at `-->`, as in the source.
- Schedules.BlockedIntervalsByDay: bands are given as days and minutes; parsing them from a list file is not modelled.
