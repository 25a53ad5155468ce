# A verified model of pfctl-rs

pfctl-rs changes the PF firewall of macOS through ioctls on `/dev/pf`. This project models the
parts of it that carry state and arithmetic, and proves what its users rely on:

- **Transactions.** A map from anchor names to optional rule lists is partitioned by kind, turned
  into one element array, opened, filled by four loops that share one ticket iterator, and
  committed. The result is proved to be a plain override of the active rulesets, all or nothing,
  for every answer the firewall may give at every step.
- **Rule encoding.** Filter, NAT, redirect and scrub rules are written member by member into C
  structures. A decoder written from the meaning of those members recovers every accepted rule, and
  the accepted rules are characterised exactly.
- **Single rules, flushing and anchors**, and how they compose with transactions over whole runs.
- **Queries** whose answers may change between two calls: interfaces, states, anchor rules.

## How it is built

Each source function exists twice. The *methods* follow the source step by step: zeroed request
objects with byte arrays as text buffers, loops, a shared iterator, early returns (`Writers`,
`Device`, `Transactions`, `PfCtl`). They are proved equal to *functions* on the firewall's state
(`Encoding`, `CommitSpec`, `SingleRules`, `Anchors`, `Queries`), and the lemmas are about these
functions. The reference descriptions they are compared with know nothing of tickets, queues or C
structures: `Verdict` and `SingleVerdict` decide a commit and a single add, errors included, from names,
rules and refusals alone; `Wanted` says what a change map asks of a ruleset; `ViewOf` says what of a rule
its encoding keeps, and the decoder reads structures by the meaning of their members. The decoder is
strict, so no two structures decode alike and the encoding of a rule is the only one that decodes to it.

The main results are these; the other rows of the table are steps towards them or connect a method to
its function:

1. `CommitProofs.CommitRefinesVerdict` and `CommitTheorems.CommitOverrides`: a commit is a map override, or nothing.
2. `CommitTheorems.CommitSucceedsExactly`: when it succeeds, exactly.
3. `CommitTheorems.FailedCommitLeavesNothing`: a failed commit has no later effect.
4. `CommitTheorems.WalkOrderIsIrrelevant`: the order of the hash map does not matter, for any plan.
5. `CommitTrace.TicketsAlign`: every rule goes under its own element's ticket, with exactly its own pool.
6. `Transactions.Transaction.Commit`: the method with its loops and shared iterator does all this.
7. `Decoding.EncodingIsDetermined` and `CommitTheorems.CommittedRulesReadBack`: what is active decodes to what was asked for, and nothing else does.
8. `Encoding.AcceptanceIsExact` and `Encoding.RuleErrors`: which rules encode, exactly, and with which error the others fail.
9. `SingleRules.SingleIsJudged` and `SingleRules.BatchAgainstSequence`: single adds, and one transaction against flushing and adding one by one.
10. `Runs.RunsRefineRulesets`: any mixed run of all operations refines lists of rules and sets of anchors.
11. `Anchors.SearchIsFirstMatch`, `Anchors.LifecycleRefinesNames` and `Anchors.RemoveUndoesAddExactly`: anchors.
12. `Queries.GetInterfacesMeans` and `Queries.ClearStatesMeans`: the queries from end to end.
13. `CStrings.ValidExactly`: the names taken for UTF-8 are exactly the encodings of characters.

| file | content |
|---|---|
| `Prelude`, `Ffi`, `Structs` | integer widths, errors, constants, C structures as values and as objects |
| `CStrings`, `ByteOrder`, `Flags` | bounded NUL-terminated strings, byte swaps, flag folds |
| `Rules`, `Encoding`, `Decoding`, `Writers` | rules, their encoding, the decoder, the in-place writers |
| `PfKernel`, `Device` | the firewall: one function per ioctl, and the object that holds its state |
| `CommitSpec`, `CommitProofs`, `Changes`, `CommitTheorems`, `CommitTrace`, `Transactions` | transactions |
| `SingleRules`, `Anchors`, `Queries`, `PfCtl`, `Runs` | the other operations, and mixed runs |

## What is assumed of the firewall

`PfKernel` stands for pf(4), the manual page that src/ffi/mod.rs:31-33 refers to. The firewall's
code is not part of this model. Its state holds the active rulesets, a scratch area (inactive queues
and tickets, active tickets, one pool and its ticket), and what other processes control. A *plan*
says how each call is met; every theorem is for all plans unless it says otherwise.

- A turn may *refuse* any call with any errno. A refused call keeps the active rulesets and leaves
  *anything at all* in the scratch area. When the plan is used up, calls are served.
- Beginning a transaction empties the queue of each element and gives it a new ticket. Tickets are 32
  bits wide and wrap. A rule is queued only under the ticket of its ruleset and the current pool
  ticket, and takes the pool with it. A commit swaps all queues in, or fails and swaps none.
- The firewall derives the ruleset of a rule from its anchor name and its action. Rulesets are keyed
  by the exact name bytes. The empty name is the main ruleset, where anchor rules are: adds, commits
  and anchor operations act on the same list there.
- A plan may let other processes edit any ruleset before any served call. What a lemma says of a ruleset
  being kept is said where it is `Steady`: where the plan edits this very ruleset nowhere. An edit of
  others that would spoil a ticket of ours is a refusal of the call that bears it.
- A rule that calls no anchor reads back with an empty `anchor_call`.
- Inserting an anchor rule whose (non-empty) name exists fails with EEXIST; the place of a new one is
  arbitrary.
- Deleting removes the rule with the number in the request. The library hands over the whole rule it
  read back (src/lib.rs:324-328); its other members play no part in the model.
- The interfaces, the states and the kill counts may change before any served call, independently of
  the rulesets.

The order in which a `HashMap` is walked is arbitrary, and may differ between the four walks of a
commit. The byte order of the host is a parameter of the writers.

## Where code and documentation disagree

- src/lib.rs:435-437 promises `AnchorDoesNotExist` from `clear_states` for a missing anchor. The code
  reports it exactly when the firewall reports room for at least one state and returns `Ok(0)` otherwise
  (`Queries.MissingAnchorIsReportedExactly`, with a concrete case in `Queries.MissingAnchorCanGoUnnoticed`).
- src/transaction.rs:94-96 speaks of filter and redirect elements only. The code orders filter, NAT,
  redirect, scrub (`CommitTheorems.OneElementPerField`).
- `add_rule` ignores a route (src/lib.rs:340-350; tests/filter_rules.rs:132-134 say so). The two ways
  of adding a rule agree exactly for unrouted rules (`SingleRules.PathsDifferByRoute`).
- An anchor can be added and removed under the empty name, which is no anchor: adding puts in a rule
  that calls none, and removing takes out the first such rule, whatever it is. Removing undoes adding
  exactly for names that are not empty (`Anchors.RemoveUndoesAddExactly`, `Anchors.EmptyNameIsNoAnchor`).
- For negative reported lengths the byte length of the second states request fits 32 bits only in part
  of the range (`Queries.RequestFitsExactly`). The model wraps it, as release builds do; debug builds panic.

## Model

| member | source | states |
|---|---|---|
| CommitProofs.CommitRefinesVerdict | src/transaction.rs:50-161 | From any state of the firewall and for any plan, a commit returns the verdict computed from names, rules and the errnos of refused calls alone; on success every ruleset of the transaction holds exactly its encoded rules, each with its own pool; every other ruleset, and on failure every ruleset, is unchanged but for what others do to it |
| CommitProofs.RuleStaged | src/transaction.rs:164-265 | Whatever earlier rules or aborted attempts left in the pool, adding a rule appends exactly its own encoding with exactly its own pool to the queue of its own anchor and kind, and touches no other queue |
| CommitProofs.RulesStaged | src/transaction.rs:125-131 | One inner loop keeps the invariant that each queue is open under its element's ticket and holds exactly the rules added so far, and issues no commit |
| CommitProofs.JobsStaged | src/transaction.rs:124-158 | All loops together leave every queue of the transaction complete, without a change to an active ruleset |
| CommitProofs.OpenedMeans | src/transaction.rs:118-122 | After begin every element carries the new ticket of its own emptied queue |
| CommitProofs.SwappedMeans | src/transaction.rs:160-160 | Committing distinct elements installs each queue and leaves every other ruleset as it was |
| CommitProofs.CommitInstalls | src/transaction.rs:160-160 | The commit of a completely filled transaction can only fail by being refused, and then changes nothing |
| CommitProofs.ElementsAreOf | src/transaction.rs:278-286 | The elements name the rulesets of the jobs in order, and no two of them the same one |
| CommitProofs.AnchorNameReadBack | src/utils.rs:57-61 | A name copied into a zeroed anchor buffer is followed by zeros and reads back as itself |
| CommitSpec.ElementsMeans | src/transaction.rs:97-115 | The element array exists if and only if every anchor name fits without NUL, and then has one element per job: its number, its name followed by zeros, and no ticket |
| CommitTheorems.CommitOverrides | src/transaction.rs:289-299 | After a successful commit each ruleset set to `Some` holds exactly those rules in order, an empty list included, and `None` or unmentioned ones are unchanged; after a failed one none has changed |
| CommitTheorems.CommittedRulesReadBack | src/transaction.rs:289-299 | What a commit leaves active decodes to the rules that were asked for, routes with their interface and target included |
| CommitTheorems.OneElementPerField | src/transaction.rs:94-115 | One element per set field of the change map, grouped filter, NAT, redirect, scrub, with pairwise distinct encoded name and ruleset number |
| CommitTheorems.CommitSucceedsExactly | src/transaction.rs:50-161 | A commit succeeds if and only if all names and rules are acceptable and none of its calls, counted exactly, is refused |
| CommitTheorems.AcceptanceOfChanges | src/transaction.rs:50-161 | For any plan a commit succeeds if and only if the change map is sound and its calls, whose number is a function of the map, are served: no order appears |
| CommitTheorems.CallsOfChanges | src/transaction.rs:56-160 | However the map is walked, a commit takes the same number of calls |
| CommitTheorems.RuleVerdictExact | src/transaction.rs:164-265 | A rule is added if and only if it is acceptable and its two or three calls are served |
| CommitTheorems.CommitIgnoresScratch | src/transaction.rs:50-161 | The result of a commit does not depend on queues, tickets or pools left by anything earlier, and neither does any ruleset: what was equal before is equal after, and what was set is equal anyway |
| CommitTheorems.FailedCommitLeavesNothing | src/transaction.rs:115-160 | After a failed commit, wherever it failed, a later commit goes as if the failed one had never run |
| CommitTheorems.WalkOrderIsIrrelevant | src/transaction.rs:56-115 | For any plan, two walks of the same map end alike and leave the same rulesets |
| CommitTrace.TicketsAlign | src/transaction.rs:97-160 | In the calls made, the transaction is begun with the whole element array; each rule is added with its own encoding and name under the ticket of the element of its own anchor and kind, after its own pool was begun and filled with exactly its own addresses under the ticket it bears, in order, none skipped; the commit is issued at most once, last, after every rule, with the same elements |
| CommitTrace.RuleTraced | src/transaction.rs:164-265 | Adding a rule makes at most one add call, for this rule, anchor, ticket and pool, whatever pool was seen before, and exactly one if it succeeds |
| CommitTrace.JobsTraced | src/transaction.rs:121-158 | The add calls of the four loops are a prefix of the expected list of rule, anchor, ticket and pool, and the whole list on success |
| Changes.PartitionCovers | src/transaction.rs:55-92 | Any partition of a change map sets exactly the rulesets the map asks for, each once |
| Changes.PartsAgree | src/transaction.rs:289-299 | What the four partitions hold for a ruleset is what its change asks for, rule by rule and in order |
| Changes.TakingKeepsTheRest | src/transaction.rs:56-92 | Taking the rules of one kind out of the changes leaves those of the later kinds |
| Transactions.Transaction.AddChange | src/transaction.rs:42-47 | A change replaces the earlier one of its anchor and no other |
| Transactions.Transaction.TakePartition | src/transaction.rs:55-92 | The four walks list every set field of the changes as they were before the first walk, once, and leave every change empty |
| Transactions.Collect | src/transaction.rs:56-65 | One walk yields every pair of the map once, in an order nobody chooses |
| Transactions.Transaction.Commit | src/transaction.rs:49-161 | The method overrides the active rulesets by the changes or changes none of them, through exactly the calls of the specification |
| Transactions.CommitPartition | src/transaction.rs:94-161 | Elements, begin, the four loops and the commit do what `CommitSpec.Commit` says, errors included |
| Transactions.AddChanges | src/transaction.rs:124-131 | One loop zipped with the shared ticket iterator takes exactly one ticket per pair and leaves the next ticket to the next loop |
| Transactions.AddPartition | src/transaction.rs:121-158 | Four loops over one iterator are one pass over all jobs, each with the ticket of its own element |
| Transactions.TicketIterator.Next | src/transaction.rs:121-122 | Yields each ticket once, in order, and then none |
| Transactions.BuildElements | src/transaction.rs:97-115 | The chained array, or the first name error in its order |
| Transactions.AddFilterRule | src/transaction.rs:163-195 | Name, rule, pool, route address, tickets, add: in this order, stopping at the first error |
| Transactions.AddNatRule | src/transaction.rs:197-222 | The same with the NAT address and its ports |
| Transactions.AddRedirectRule | src/transaction.rs:224-247 | The same with the redirect address and its ports |
| Transactions.AddScrubRule | src/transaction.rs:249-265 | The same with an empty pool |
| Encoding.AcceptanceIsExact | src/rule/mod.rs:134-161 | A rule with its pool is encoded if and only if its families agree, its state policy suits its protocol, its label and interface names fit, and its port ranges, pool ports included, are ordered |
| Encoding.RuleErrors | src/rule/mod.rs:134-161 | A rule that does not encode fails with its first objection, in the order of the source |
| Encoding.PoolErrors | src/pooladdr.rs:54-58 | The same for the address of its pool, which there is exactly for routes, NAT and redirect addresses |
| Encoding.PoolPortErrors | src/rule/port.rs:56-82 | The same for the ports of its pool |
| Encoding.ObjectionsAreExact | src/rule/mod.rs:103-128 | The objections are those to rules that are not acceptable |
| Encoding.MaskBits | src/rule/mod.rs:370-376 | The bits of a mask are those of its prefix |
| Encoding.MaskSelectsPrefix | src/rule/mod.rs:370-376 | Addresses agree under the written mask if and only if they agree in the bits of the prefix |
| Encoding.EncodedKind | src/rule/mod.rs:134-135 | The action of an encoded rule puts it into the ruleset of its kind |
| Rules.FilterFamilies | src/rule/mod.rs:103-108 | The nested pairwise checks accept exactly the sets of families without both IPv4 and IPv6, and give the one they share |
| Rules.NatFamilies | src/rule/mod.rs:180-190 | The same for NAT rules, whose address counts only when there is one |
| Rules.RedirectFamilies | src/rule/mod.rs:299-305 | The same for redirect rules |
| Rules.JoinOneMore | src/rule/mod.rs:356-366 | Joining one family after another is order-free agreement of a set |
| Decoding.RuleRoundTrip | src/rule/mod.rs:131-354 | Every accepted rule is recovered from its installed form by the strict decoder, its pool included, up to the stated collapses |
| Decoding.DecodingTells | src/rule/mod.rs:131-354 | Two installed rules that decode alike are the same, byte for byte |
| Decoding.EncodingIsDetermined | src/rule/mod.rs:131-354 | What is installed for an accepted rule is the only thing that decodes to it |
| Decoding.OwnMembersOnly | src/rule/mod.rs:131-354 | Only the members of its kind are set in an encoded rule, all others are zero, and `quick` is 0 or 1 as asked |
| Decoding.FilterRoundTrip | src/rule/mod.rs:134-161 | Every member of a filter rule is recovered, the interface and target of its route included |
| Decoding.NatRoundTrip | src/rule/mod.rs:256-265 | The same for NAT rules, with the address and ports of the pool |
| Decoding.RedirectRoundTrip | src/rule/mod.rs:316-334 | The same for redirect rules, with the address and ports of the pool |
| Decoding.AddressLosesItsFamily | src/pooladdr.rs:54-58 | A pool address does not tell its family: an IPv4 and an IPv6 route can have the same bytes, so a route's target is recovered without it |
| Decoding.TargetTellsAddress | src/rule/mod.rs:370-385 | Among addresses of one family the recovered target tells which it is |
| Decoding.EncodingInjective | src/rule/mod.rs:131-354 | Two accepted rules have the same encoding if and only if they mean the same |
| Decoding.IpRoundTrip | src/rule/ip.rs:72-79 | Address and prefix length are recovered; the wildcard is the zero address with prefix 0 |
| Decoding.MaskRoundTrip | src/rule/mod.rs:370-376 | The prefix length of a mask is the one it was made from, and a mask is zero only for prefix 0 |
| Decoding.PortRoundTrip | src/rule/port.rs:29-81 | Ports, operators and ranges are recovered from network order and from the pool's host order |
| Decoding.EndpointRoundTrip | src/rule/endpoint.rs:94-103 | Address and port of an endpoint are recovered |
| Decoding.IdRoundTrip | src/rule/uid.rs:42-62 | User and group ids are recovered from a zeroed structure |
| Decoding.IcmpRoundTrip | src/rule/icmp.rs:72-108 | The plus-one encoding of ICMP type and code is invertible |
| Decoding.InterfaceRoundTrip | src/rule/interface.rs:35-46 | Interface names are recovered; the empty name is any interface |
| Flags.FoldHasBit | src/rule/tcp_flags.rs:44-48 | A bit is set in the fold of a list of any length if and only if an element carries it |
| Flags.FoldConcat | src/rule/rule_log.rs:48-52 | Concatenation becomes bitwise or |
| Flags.FoldBySet | src/rule/tcp_flags.rs:44-48 | Order and repetition do not change the byte |
| Flags.TcpByteMeans | src/rule/tcp_flags.rs:25-48 | The bit at each place of the TCP header is set if and only if the flag of that place is listed |
| Flags.LogByteMeans | src/rule/rule_log.rs:23-52 | The bit at each place is set if and only if the option of that place is listed, and no other bit is |
| Flags.TcpFlagsTell | src/rule/tcp_flags.rs:44-48 | Only one byte reads back as a given set of flags |
| CStrings.TryCopyString | src/rule/mod.rs:403-424 | The in-place copy succeeds exactly for texts shorter than the buffer without NUL; bytes past the terminator, and on error all bytes, are kept |
| CStrings.StringRoundTrip | src/lib.rs:250-263 | Over any prior content, the comparison accepts exactly the copied text and the interface-name parser returns it if it is UTF-8 |
| CStrings.ValidExactly | src/rule/interface.rs:69-73 | The texts taken for UTF-8 are exactly the encodings of sequences of Unicode scalar values, section 3 of RFC 3629 |
| CStrings.ParseNameMeans | src/rule/interface.rs:67-73 | The parser returns exactly the terminated texts that encode characters, and says whether the NUL or the encoding is at fault |
| CStrings.CopyInjective | src/rule/mod.rs:408-423 | Different texts never leave the same bytes, whatever the buffers held |
| ByteOrder.NetworkOrder16 | src/rule/port.rs:36-50 | Swapping on store gives network order on either host, and swapping on load undoes it |
| ByteOrder.NetworkOrder32 | src/rule/mod.rs:387-391 | The same for 32 bits |
| Writers.CopyV6 | src/rule/mod.rs:393-401 | The loop over swapped segments writes the sixteen octets in order, on either host |
| Writers.CopyV4 | src/rule/mod.rs:387-391 | Writes the first four bytes of the union and keeps the other twelve |
| Writers.CopyIp | src/rule/ip.rs:72-79 | The wildcard is written as the network ::/0 |
| Writers.CopyPort | src/rule/port.rs:26-54 | Writes operator and ports in network order; a reversed range writes nothing |
| Writers.CopyPoolPort | src/rule/port.rs:56-82 | The same in host order |
| Writers.CopyId | src/rule/uid.rs:42-62 | A single id leaves the second slot alone |
| Writers.CopyInterface | src/rule/interface.rs:35-46 | Any interface is the empty name; an error keeps the buffer |
| Writers.CopyPoolAddr | src/pooladdr.rs:51-59 | Interface first, then address |
| Writers.InitPool | src/pooladdr.rs:96-104 | One encoded structure per address, in order, or the error of the first that fails |
| Writers.CopyIcmp | src/rule/icmp.rs:98-108 | Type and code one higher, or code 0; without a type nothing is written |
| Writers.CopyFilterRule | src/rule/mod.rs:131-162 | The member-by-member copy equals `Encoding.FilterOver` over any prior content |
| Writers.CopyNatRule | src/rule/mod.rs:253-266 | The same for NAT rules |
| Writers.CopyRedirectRule | src/rule/mod.rs:313-335 | The same for redirect rules |
| Writers.CopyScrubRule | src/rule/mod.rs:346-354 | The same for scrub rules |
| Device.PfDevice.AddPoolAddress | src/utils.rs:29-39 | Encodes one address and registers it under the ticket |
| Device.PfDevice.GetTicket | src/utils.rs:48-55 | Asks for the ticket of the active ruleset of an anchor and kind |
| SingleRules.SingleAppends | src/lib.rs:340-420 | For any plan a single add succeeds if and only if its name fits, its rule encodes and its three or four calls are served; then it appends exactly the rule's form to its own ruleset, and otherwise it changes nothing |
| SingleRules.SingleIsJudged | src/lib.rs:340-420 | A single add returns the verdict of names, rules and the errnos of refused calls, in the order of its path |
| SingleRules.SingleTraced | src/lib.rs:340-420 | A single add that succeeds makes exactly its calls: a pool, its address if there is one, a request for the ticket that carries the anchor and kind alone, and the rule at the tail under both tickets |
| SingleRules.SingleFormIsEncoding | src/lib.rs:340-350 | A filter rule added singly is encoded like the same rule with any other target of its route, without a pool |
| SingleRules.AllAppend | src/lib.rs:340-420 | A run of single adds appends exactly the rules before the first failing one, and goes through if and only if the name fits, every rule encodes and all its calls, counted exactly, are served |
| SingleRules.SequenceKeepsPrefix | src/lib.rs:340-433 | For any plan, after a flush that succeeded the ruleset holds exactly the rules before the one that failed, and no other ruleset changed |
| SingleRules.BatchAgainstSequence | src/lib.rs:352-433 | For any plan: a failed transaction keeps the old rules, flushing and adding one by one keeps exactly the rules before the one that failed; when both succeed they end in the same rulesets if and only if no rule is routed; without refusals and routes both succeed or neither |
| SingleRules.PathsDifferByRoute | src/lib.rs:340-350 | The two ways install one rule alike if and only if it has no route |
| SingleRules.FlushEmpties | src/lib.rs:422-433 | Flushing empties exactly one ruleset or changes nothing |
| PfCtl.FlushIsOneJob | src/lib.rs:422-433 | The change map of a flush is one job without rules |
| PfCtl.OneFieldIsOneJob | src/lib.rs:352-356 | A change with one field set partitions into one job with its rules |
| PfCtl.PfCtl.FlushRules | src/lib.rs:422-433 | Sets the field of the kind to an empty list and commits |
| PfCtl.PfCtl.SetRules | src/lib.rs:352-356 | Overrides the rulesets of one anchor, or changes none; with one field set it is the commit of one job |
| PfCtl.PfCtl.AddRule | src/lib.rs:340-350 | Pool ticket, ticket, name, rule, append; no pool address |
| PfCtl.PfCtl.AddNatRule | src/lib.rs:358-383 | Name, rule, pool, address, ports, ticket, append |
| PfCtl.PfCtl.AddRedirectRule | src/lib.rs:385-408 | The same for redirect rules |
| PfCtl.PfCtl.AddScrubRule | src/lib.rs:410-420 | Pool ticket, ticket, name, rule, append |
| Runs.RunsRefineRulesets | src/lib.rs:308-433 | Over any mixed run of commits, single adds and anchor operations, refused anywhere, any ruleset that nobody else edits, a main one included, is what the successful actions alone make of a list of rules and a set of anchors: a commit replaces both, an add appends a rule, an anchor operation changes the set |
| Anchors.SearchIsFirstMatch | src/lib.rs:586-602 | Against a main ruleset that changes at will: indices are read in order below the first count; the result is the first whose name matches; the anchor is missing if and only if all were read and none matched |
| Anchors.LifecycleRefinesNames | src/lib.rs:308-337 | Over any sequence of add, try_add, remove and try_remove with any refusals, a main ruleset nobody else edits is a set of names on which the successful operations act, without duplicates, and its other rules stay; the returned results tell which succeeded wherever EEXIST is kept for existing names |
| Anchors.StepRefines | src/lib.rs:308-337 | One operation succeeds and does to the names what it says, or fails and does nothing, and touches no other ruleset whatever others do; without refusals its result is that of the set |
| Anchors.OperationElsewhere | src/lib.rs:308-337 | An anchor operation touches no ruleset but the main one of its kind, whatever others do to that one |
| Anchors.AddAnchorMeans | src/lib.rs:308-316 | Adding fails for a name that does not fit, a refusal or an existing name, each with its error, and otherwise inserts at the place the firewall chose a rule that calls exactly this name and restricts nothing |
| Anchors.AddAnchorTraced | src/lib.rs:308-316 | Adding makes one call, with nothing but the kind and the name, and returns the error of its refusal |
| Decoding.BareMatchesAll | src/lib.rs:309-312 | Such a rule restricts nothing: any interface, family, endpoints, protocol and owner |
| Anchors.RemoveAnchorMeans | src/lib.rs:324-328 | Removing deletes the first rule of this name, or reports it missing when it is, or a refusal |
| Anchors.RemoveAnchorTraced | src/lib.rs:324-328 | Removing searches, then deletes the number found; its error is that of the call refused, or that of a complete search without a match |
| Anchors.TryFormsAreIdempotent | tests/anchors.rs:16-47 | Repeating a successful try form succeeds and changes no list |
| Anchors.RemoveUndoesAdd | tests/anchors.rs:32-47 | Removing a name that was just added restores every ruleset, wherever it was put and whatever else is there |
| Anchors.RemoveUndoesAddExactly | src/lib.rs:308-328 | On every firewall removing undoes adding, if and only if the name is not empty |
| Anchors.EmptyNameIsNotRestored | src/lib.rs:308-328 | A main ruleset of one rule that adding and removing the empty name changes |
| Anchors.EmptyNameIsNoAnchor | src/lib.rs:308-328 | Adding and removing keep the rules that call no anchor, unless the name is empty: then one is added, or the first one is removed |
| Anchors.TryAddTells | src/lib.rs:318-322 | After a successful try_add the name is there, if and only if it was there before or the call was not refused with EEXIST |
| PfCtl.PfCtl.WithAnchorRule | src/lib.rs:586-602 | The loop that overwrites its own request finds what `Anchors.FindAnchor` finds, and hands over the request with the matching number and name |
| PfCtl.PfCtl.AddAnchor | src/lib.rs:308-316 | Does what `Anchors.AddAnchor` says |
| PfCtl.PfCtl.TryAddAnchor | src/lib.rs:318-322 | Returns what adding returns, but forgives StateAlreadyActive, and nothing else |
| PfCtl.PfCtl.RemoveAnchor | src/lib.rs:324-328 | Deletes by the number the search left in the request |
| PfCtl.PfCtl.TryRemoveAnchor | src/lib.rs:330-337 | Returns what removing returns, but forgives AnchorDoesNotExist, and nothing else |
| Queries.InterfacesFromLastRequest | src/lib.rs:528-563 | For any counts, at most two requests, the second sized by the first count; the entries are those of the last request, min(count, buffer) many, and all of them when they fit; the only error is a refusal |
| Queries.DescribeMeans | src/rule/interface.rs:64-79 | The conversion succeeds if and only if every name is terminated and UTF-8, keeps order and flags, and otherwise returns the first error |
| Queries.AsciiNamesAreDescribed | src/rule/interface.rs:64-79 | Terminated names of characters below 0x80 are always described, as they stand |
| Queries.GetInterfacesMeans | src/lib.rs:528-563 | The whole query: no request for a name that does not fit; otherwise the requests carry the name, and it succeeds if and only if no request was refused and every entry of the last one has a valid name, and then describes exactly these entries in order |
| PfCtl.PfCtl.GetInterfaces | src/lib.rs:528-563 | The retry loop over a replaced buffer does what `Queries.GetInterfaces` says |
| Queries.RequestIsLargestMultiple | src/lib.rs:605-634 | For a non-negative reported length the second request is its largest multiple of the state size, and fits 32 bits |
| Queries.RequestFitsExactly | src/lib.rs:623-628 | The product fits 32 bits for these reported lengths and no others |
| Queries.SnapshotTakesTwoCalls | src/lib.rs:565-575 | At most two requests; the snapshot has one entry per state of the first answer, filled with the states of the second answer as far as they go |
| Queries.KillsInOrder | src/lib.rs:441-453 | One kill request per matching state, with its family, protocol, interface and hosts, in order, up to the first error; the result is the sum of the replies |
| Queries.KillTraced | src/lib.rs:636-647 | A kill request carries the family, protocol, interface and first hosts of its state; a refusal is the error of its errno |
| Queries.OfAnchorMeans | src/lib.rs:444-444 | The filtered states are the snapshot's states of the anchor, each as often as there |
| Queries.OfAnchorInOrder | src/lib.rs:444-444 | They keep the order of the snapshot, and none is left out |
| Queries.ClearStatesMeans | src/lib.rs:438-458 | The whole operation, successful or not: the calls are the snapshot requests, the count and the reads up to the first matching rule, and one kill per snapshot state that carries its number; the result is the sum of the replies and fits 32 bits; the anchor is reported missing if and only if there were states, every rule was read and none matched, and any other error is that of the last call |
| Queries.KillCountFits | src/lib.rs:449-453 | The 32-bit sum of one-byte counts over a snapshot cannot overflow |
| Queries.MissingAnchorIsReportedExactly | src/lib.rs:435-458 | A missing anchor is reported if and only if the first answer has room for a state; otherwise the result is 0 |
| Queries.MissingAnchorCanGoUnnoticed | src/lib.rs:435-458 | A firewall where the documented error does not come |
| PfCtl.PfCtl.ClearStates | src/lib.rs:438-458 | Snapshot, search and kills do what `Queries.ClearStates` says, with a 32-bit sum |
| PfCtl.PfCtl.KillStatesOf | src/lib.rs:442-453 | Filters the snapshot by anchor number, kills in order, stops at the first error, and sums without overflow |
| PfCtl.PfCtl.GetStatesInner | src/lib.rs:566-575 | The two-call snapshot over a zeroed buffer |
| Queries.AddressRoundTrip | src/state.rs:64-89 | `parse_address` undoes the address and port writers, over any prior content of the union, on either host |
| Queries.ParsedAddressIsWritten | src/state.rs:72-89 | Writing a parsed address gives back the bytes it was parsed from |

## Left out

- Opening `/dev/pf`, file descriptors, and the error texts.
- `enable`, `disable`, their try forms and `is_enabled`; `kill_state`, `clear_interface_states`, `set_interface_flag`, `clear_interface_flag`: one ioctl each, without state of their own.
- `PoolAddrList::link_elements` and `create_palist`: they link copies, and the pool that counts is the one registered by `add_pool_address`; `Writers.InitPool` is modelled.
- Builders, `From` conversions, `Display`, and the default NAT port range: plain tables and constructors.
- The `as i32` of the element count in `setup_trans`: arrays of more than 2^31 - 1 elements are not modelled.
- Anchor rule numbers and list lengths beyond 32 bits.
- Embedded C structures are values in members of a request object, and only text buffers are arrays, so aliasing inside one request is modelled for the buffers alone.
- What a request holds after a failed copy: every caller drops it. `TryCopyString` and the writers of ports, names and labels do state what they keep.
- The four loops of a commit are one generic method, `Transactions.AddChanges`, called four times over one iterator.
- Which states one kill request removes, and that the counts are exact: the firewall decides, and reports one byte.
- That all entries of a states snapshot are live: the vector is not shortened when the second answer is smaller.
- Other clients that use transactions, pools or tickets of their own: their edits of rulesets are modelled, their tickets only as refusals.
- LifecycleRefinesNames: is about names that are not empty in a ruleset nobody else edits; `Anchors.EmptyNameIsNoAnchor` says what happens under the empty name, and `Anchors.TryAddTells` what a refusal with EEXIST does to the result of `try_add_anchor`.
- RunsRefineRulesets: the same, for the ruleset it is about.
- IdRoundTrip: is for zeroed structures only, because a single id leaves the second slot as it was.
- The mask of a prefix is a definition (section 3.1 of RFC 4632); how `ipnetwork` computes it is not part of this model.
