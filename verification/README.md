# Verified models of the release and test tooling

Dafny models of the Python tools that decide whether an o3k release or a test campaign is
trusted, with proofs of what those tools are relied on for. `dafny verify dfyconfig.toml`
checks the whole project.

- **Transparency-log inclusion** (`Bytes`, `MerkleTree`, `InclusionProof`,
  `InclusionTheorems`): the two hash folds of `verify_transparency` against the Merkle tree
  of section 2.1 of RFC 6962 and the verification loop of section 2.1.3.2 of RFC 9162. The
  hash is an arbitrary function to 32 bytes. Soundness holds up to an exhibited collision:
  two different strings with one hash, one hashed by the accepting run and one by the tree.
  Siblings may have any length, as in the code, which never checks it.
- **Rust lexer and test scope** (`RustLexer`, `RustLexerTheorems`, `RustTokens`, `RustScope`,
  `RustScopeTheorems`, `CfgAttributes`, `RustText`): the stateful line lexer with its fast path
  and bulk copies refines a lexer that reads one token at a time, line by line gives what lexing
  the whole file gives, and reads exactly the code of any text printed from Rust's lexical
  elements; the classifier marks exactly the regions of `#[cfg(test)]` modules and items, down to
  the characters of their lines and the predicate trees of their attributes.
- **Static analyses** (`RegexPrefix`, `RegexPrefixTheorems`, `Graphs`, `DependencyCycles`,
  `AdrIndex`): the literal-prefix scanner is a claim about the language of a regular
  expression; both depth-first searches find a cycle if and only if there is one.
- **Protocols as steps** (`CampaignLock`, `CampaignLockTheorems`, `Provisioning`,
  `ProvisioningTheorems`, `CrashEvidence`, `CrashEvidenceTheorems`, `FaultProxy`): every
  interleaving of file-system calls, server statements or handler threads, with crashes
  between any two of them.
- **Codecs and transforms** (`ArtifactManifest`, `ArtifactManifestTheorems`, `Escaping`,
  `Redaction`): each with the reader on the other side.
- **Leak verdict** (`LeakVerdict`, `LeakTheorems`, `LeakComparison`): the snapshot comparison and
  its aggregate.

`Wrappers` and `Strings` hold what the modules share.

Code that works step by step is modelled as classes and methods (`RustLexState`, `Search`,
`Visitor`, `Host`, `EvidenceFile`, the loops of the verifier, scanner, decoder, classifier
and comparison), each proved equal to a function; the theorems are about the functions.

## Where the code does not do what is expected of it

Each of these is a theorem, together with the condition under which the code is right.

- The literal-prefix scanner is unsound for a pattern with a top-level alternation and a class
  whose first member is an unescaped `]` and whose parentheses do not balance, such as `[](]`.
  It is sound for every other pattern of the modelled syntax, and for every such class some
  pattern is wrongly accepted (`AcceptedPrefixIsRequired`, `UnbalancedClassIsUnsound`).
- The campaign lock is exclusive when no release overlaps another invocation of its own run;
  acquires of one run may overlap. A release that overlaps a release or an acquire of its run
  breaks it (`TwoReleasesBreakExclusion`, `AcquireAndReleaseBreakExclusion`). A directory left
  behind by a crash can be given back if and only if its owner record is complete.
- Crash-evidence values keyed `phase` or `status` replace those fields of the stored checkpoint.
  The history stays coherent exactly when they repeat them, and the document can be continued
  exactly when the phase is repeated and the status is `running`, or `failed` before the last
  phase. An explicitly blank identity hides a mismatch of server and target: exactly then they
  come to disagree.
- The ownership check and the drops of `cleanup` are separate statements: a run-named database
  that another client replaces in between is dropped although it belongs to somebody else. As
  long as other clients leave those names alone, only databases of the run's role are dropped.
- Role names of two runs coincide when the run identifiers differ only in `-` and `_`; the second
  run's provisioning is then refused as long as the first one's role exists.
- `_canonical_cycle_key` counts the repeated start, so a ring has a key per entry point.
- A `cfg` attribute is searched as text. For `all` of flags that finds exactly the test-only ones;
  with nested calls `all(x,any(y,test))` is taken for test-only although other builds have it,
  and `all(any(test))` is not although only test builds do.
- A nested `#[cfg(test)]` item takes over the one item slot, and the rest of the outer item
  is no longer marked; a nested module leaves it alone.
- `decode_artifact_manifest` is documented to return `None` for unparseable payloads; a cut-off
  varint inside a field raises instead.
- `contains_unsanitized_secret` does not look at the `id` of token objects, which `redact` hides.
- State-root and injection-root entries that appear between two snapshots are leaks only when
  stale or active: those classified `inconsistent` or `foreign` do not change a pass. And a row
  let through as expected residue is not looked at again by the next comparison.
- A fault rule with a negative budget never runs out. Two requests get equal numbers exactly when
  no handler finishes between their arrivals.

## Model

| member | source | states |
|---|---|---|
| MerkleTree.SplitIsPowerOfTwo | packaging/verify-sigstore-bundle.py:120-123 | the split of the reference tree is the power of two k with k < n <= 2k, as section 2.1 of RFC 6962 demands |
| MerkleTree.TreeHashIsRootOf | packaging/verify-sigstore-bundle.py:119-127 | the recursive tree hash over leaves is the root over their leaf digests |
| MerkleTree.RootOfNextLevel | packaging/verify-sigstore-bundle.py:124-127 | pairing one whole level into the next keeps the root: the recursive and the level-by-level tree are one tree |
| MerkleTree.PathOfNextLevel | packaging/verify-sigstore-bundle.py:124-129 | going up one level takes exactly the node's sibling, if it has one, off the front of the audit path |
| MerkleTree.LeafIsNoNode | packaging/verify-sigstore-bundle.py:119-129 | no leaf input is a node input: what is hashed for a leaf begins with 0, for two children with 1 |
| InclusionProof.VerifyInclusion | packaging/verify-sigstore-bundle.py:115-131 | index check, count check and the two loops compute the specified verdict, error cases included |
| InclusionProof.SiblingCountIsHashCount | packaging/verify-sigstore-bundle.py:120-123 | bit_length(index xor (size-1)) + popcount(index >> inner) is the number of levels on which the node has a sibling |
| InclusionProof.FoldIsClimb | packaging/verify-sigstore-bundle.py:124-129 | the inner and border folds together climb the tree level by level, for every proof of the right length |
| InclusionProof.VerifyIsClimb | packaging/verify-sigstore-bundle.py:116-131 | acceptance is: the index is in the tree and the climb uses up the proof and reaches the root |
| InclusionTheorems.Completeness | packaging/verify-sigstore-bundle.py:119-131 | for every leaf list and index the audit path of section 2.1.1 of RFC 6962 is accepted against the tree hash |
| InclusionTheorems.ProofLength | packaging/verify-sigstore-bundle.py:120-123 | the demanded number of hashes is the length of the audit path and at most the ceiling of log2 of the size |
| InclusionTheorems.Binding | packaging/verify-sigstore-bundle.py:119-131 | any root, honest or not, accepts at most one body and proof per index, or the two runs hashed two different strings to one digest |
| InclusionTheorems.HonestRunInputs | packaging/verify-sigstore-bundle.py:119-129 | on an honest proof the verifier hashes only strings that computing the tree hashes |
| InclusionTheorems.Soundness | packaging/verify-sigstore-bundle.py:115-131 | an accepted body and proof are the leaf and its audit path, or run and tree together exhibit a collision, for siblings of any length |
| InclusionTheorems.AcceptsExactly | packaging/verify-sigstore-bundle.py:115-131 | without such a collision acceptance is equivalent to being the leaf with its audit path |
| InclusionTheorems.RefinesRfc9162 | packaging/verify-sigstore-bundle.py:116-131 | for every index, size, body, proof and root the verdict agrees with the fn/sn loop of section 2.1.3.2 of RFC 9162 |
| RustLexer.RustLexState.Code | scripts/rust_source_scope.py:21-93 | fast path, bulk copies and single characters give the output and end state of the one-token-at-a-time lexer, from any state, and the loop ends |
| RustLexer.RustLexState.InCode | scripts/rust_source_scope.py:64-92 | one loop iteration in code is one reference step or a whole run of them, and leaves the loop only at a line comment |
| RustLexer.PlainRunIsCopied | scripts/rust_source_scope.py:64-70 | a bulk-copied run is what the reference copies one character at a time |
| RustLexer.AllCode | scripts/rust_source_scope.py:22-32 | outside every mode a line without quotes and slashes is all code and leaves the state alone |
| RustLexerTheorems.CharLiteralIsPassed | scripts/rust_source_scope.py:77-84 | an opened character literal is always closed again, three or four characters later |
| RustLexerTheorems.LineEndsAtBoundary | scripts/rust_source_scope.py:33-92 | every line that starts with at most one mode active, and none of them a character literal, ends so |
| RustLexerTheorems.FileEndsAtBoundary | scripts/rust_source_scope.py:33-92 | the same over any number of lines |
| RustLexerTheorems.CodeIsSubsequence | scripts/rust_source_scope.py:33-93 | the code of a line is a subsequence of the line |
| RustLexerTheorems.LineOfText | scripts/rust_source_scope.py:21-93 | no token but an escape looks past the end of a line: a line and the rest of the file can be lexed apart |
| RustLexerTheorems.LinesAgreeWithText | scripts/rust_source_scope.py:117-124 | carrying the state from line to line gives what lexing the joined file at once gives |
| RustTokens.PrintedLinesAreRead | scripts/rust_source_scope.py:8-93 | a text printed from code characters, line comments, nested block comments, strings with escapes, raw strings with any number of hashes and both kinds of character literal, cut into lines anyhow, lexes to exactly its code characters and raw-string terminators and ends in code |
| RustTokens.PrintedLineIsRead | scripts/rust_source_scope.py:8-93 | the same for one line and the entry point for a line |
| RustScope.ClassifyRustLines | scripts/rust_source_scope.py:112-158 | one verdict per line, all true for a dedicated test file, else those of the specified state machine over the lexed lines |
| RustScope.ClassifyLine | scripts/rust_source_scope.py:125-157 | one iteration computes verdict and next state of the machine |
| RustScope.EndOfLine | scripts/rust_source_scope.py:145-157 | brace counting closes the item and exactly the modules above the new depth |
| CfgAttributes.TestAttributeExactly | scripts/rust_source_scope.py:96-109 | the printed `cfg` of any predicate tree, however spaced, is a test attribute exactly when it is `test`, or a call named `all` in which some call whose name ends in `all` begins with the argument `test`, or some call has it as a later argument |
| CfgAttributes.FlatIsExact | scripts/rust_source_scope.py:96-100 | a flag, or `all` of flags, is taken for test-only exactly when every build that satisfies it is a test build |
| CfgAttributes.NestedIsInexact | scripts/rust_source_scope.py:96-100 | with nested calls it errs both ways: `all(x,any(y,test))` is taken for test-only and is not, `all(any(test))` is and is not taken for it |
| RustText.ReadExactly | scripts/rust_source_scope.py:125-157 | what is read in any line of code: the two brace counts, the semicolon, blankness, the attribute forms, and a module opening exactly at `mod` between non-word characters with a brace on the line |
| RustText.ReadsTestAttribute | scripts/rust_source_scope.py:96-109 | a `cfg` line with any padding and spacing is read as a test attribute exactly as its predicate tree says |
| RustText.ModuleTextIsMarked | scripts/rust_source_scope.py:112-158 | over the text of the lines: a `#[cfg(...)]` test attribute, further attributes or blank lines, a `mod` header and the body are marked from the attribute through exactly the line whose brace closes the module |
| RustScopeTheorems.RunKeepsNesting | scripts/rust_source_scope.py:118-157 | module depths stay strictly increasing and at most the brace depth, and so does an open item's, over every run |
| RustScopeTheorems.ModuleRegionEnds | scripts/rust_source_scope.py:136-157 | when a test module ends, the stack is the enclosing modules that are still open |
| RustScopeTheorems.ModuleRegionIsMarked | scripts/rust_source_scope.py:127-157 | a test module is marked from its attribute through exactly the first line ending below its opening depth; the next line is unmarked if nothing else is active |
| RustScopeTheorems.ItemRegionIsMarked | scripts/rust_source_scope.py:127-155 | the same for an item with a body, through exactly the line that closes the body |
| RustScopeTheorems.BodilessRegionIsMarked | scripts/rust_source_scope.py:139-152 | the same for an item without a body, through exactly the line with its semicolon |
| RustScopeTheorems.NestedRegionInsideItem | scripts/rust_source_scope.py:135-157 | inside an open test item, with `modules == []`, the line after any nested test region is marked exactly when it is an attribute, or the region was a module and the depth is still inside the item |
| RegexPrefix.RequiresLiteralPrefix | scripts/check-maintainability-guards.py:130-159 | the scanner loop computes the specified verdict on any pattern and prefix |
| RegexPrefixTheorems.TopLevelAlternation | scripts/check-maintainability-guards.py:141-158 | the scan rejects every top-level alternation and, when no class begins with `]`, nothing else |
| RegexPrefixTheorems.AcceptsIffBegins | scripts/check-maintainability-guards.py:130-159 | an accepted pattern is one branch beginning with the prefix's literals, each exactly once; when no class begins with `]` acceptance is equivalent to that |
| RegexPrefixTheorems.AcceptedPrefixIsRequired | scripts/check-maintainability-guards.py:130-166 | every match of an accepted pattern, at any place in any subject, starts with the prefix; only patterns with a top-level alternation are asked to have harmless classes |
| RegexPrefixTheorems.SkippedLinesHaveNoMatch | scripts/check-maintainability-guards.py:162-166 | a line without the prefix has no match anywhere, so skipping it loses nothing |
| RegexPrefixTheorems.UnbalancedClassIsUnsound | scripts/check-maintainability-guards.py:143-158 | for every class that begins with `]` and has unbalanced parentheses there is an accepted pattern with a match that lacks the prefix |
| DependencyCycles.Search.constructor | scripts/check-maintainability-guards.py:485-487 | a new search has visited nothing and satisfies the search invariant |
| DependencyCycles.Search.Dfs | scripts/check-maintainability-guards.py:489-499 | every call restores the path, keeps every recorded cycle a closed walk and, if none is recorded, finishes the node after all its successors |
| DependencyCycles.FindCycles | scripts/check-maintainability-guards.py:485-503 | cycles are found if and only if the graph has one, and every entry is a closed walk of real edges |
| DependencyCycles.LoadBaselineCycles | scripts/check-maintainability-guards.py:431-436 | the keys are exactly the multisets of the recorded cycles |
| DependencyCycles.ReportNew | scripts/check-maintainability-guards.py:501-511 | of the found cycles one per new multiset is reported and none of a recorded one |
| DependencyCycles.CheckDependencyRegression | scripts/check-maintainability-guards.py:439-511 | one error per new count of visited packages: every found cycle whose packages, counted with repetition, are those of no recorded cycle is reported, and so is every one through a package that no recorded cycle visits; nothing recorded is |
| DependencyCycles.KeyDependsOnStart | scripts/check-maintainability-guards.py:426-428 | two rotations of one ring share a key exactly when they start with the same package |
| AdrIndex.Visitor.Visit | scripts/validate-adr-index.py:136-146 | a visit returns an actual closed walk where the source raises, and otherwise restores the stack and finishes the record |
| AdrIndex.FindSupersessionCycle | scripts/validate-adr-index.py:134-149 | the visits raise if and only if the supersedes relation is cyclic |
| AdrIndex.LoadRecords | scripts/validate-adr-index.py:108-115 | loading fails exactly on a repeated number and names one that two files carry; otherwise it holds exactly the files |
| AdrIndex.CheckRecords | scripts/validate-adr-index.py:117-127 | the link checks pass exactly when all links resolve and every superseded record names a successor; otherwise the named record is at fault |
| AdrIndex.ValidateAdrDir | scripts/validate-adr-index.py:103-151 | the directory is accepted exactly when it is not empty, its numbers are distinct, its links are in order and supersession is acyclic; each refusal names a true cause |
| CampaignLockTheorems.RunsAreSafe | scripts/p15-7-campaign-lock.py:42-95 | the lock invariant survives every interleaving of calls, failures and crashes in which no release overlaps another invocation of its run |
| CampaignLockTheorems.MutualExclusion | scripts/p15-7-campaign-lock.py:42-95 | over all those interleavings, with any number of overlapping acquires, at most one run holds the lock, a holder made the directory, and a complete owner record names the maker |
| CampaignLockTheorems.OnlyTheMakerRemoves | scripts/p15-7-campaign-lock.py:67-95 | only a process of the run that made the directory changes or removes it |
| CampaignLockTheorems.UndisturbedAcquire | scripts/p15-7-campaign-lock.py:42-75 | on a free path an acquire that is not disturbed ends holding the lock, with its complete record |
| CampaignLockTheorems.FailedAcquireUndoesItself | scripts/p15-7-campaign-lock.py:67-73 | whichever call fails after the directory is made, an acquire that is not disturbed leaves the state as it was |
| CampaignLockTheorems.UndisturbedRelease | scripts/p15-7-campaign-lock.py:78-95 | a release of the recorded owner that is not disturbed frees the path |
| CampaignLockTheorems.TwoReleasesBreakExclusion | scripts/p15-7-campaign-lock.py:78-95 | a release overlapping a release of its run lets two other runs hold the lock at once |
| CampaignLockTheorems.AcquireAndReleaseBreakExclusion | scripts/p15-7-campaign-lock.py:42-95 | a release overlapping an acquire of its run, whichever starts first, leaves that run holding without a directory while another run acquires |
| CampaignLockTheorems.AbandonedForGood | scripts/p15-7-campaign-lock.py:46-52 | a directory without a complete record that nobody is working on stays as it is in every continuation |
| CampaignLockTheorems.LeftoverIsRecoverableIffComplete | scripts/p15-7-campaign-lock.py:42-95 | with nothing in flight, some continuation frees the path if and only if the owner record is complete |
| Provisioning.Host.Provision | scripts/provision_pp5_postgres.py:364-433 | dying after any number of effects, it leaves the specified world |
| Provisioning.Host.Cleanup | scripts/provision_pp5_postgres.py:642-659 | the same for cleanup |
| ProvisioningTheorems.RunsKeepInv | scripts/provision_pp5_postgres.py:364-433 | over every run of starts, effects, crashes and other clients' changes: no effect before the ledger, owner and names agree, cleanup progress is real |
| ProvisioningTheorems.OwnStepsSpareForeigners | scripts/provision_pp5_postgres.py:590-659 | no step of ours, and no crash, changes a foreign database, its owner or a foreign role |
| ProvisioningTheorems.OnlyOwnedIsDropped | scripts/provision_pp5_postgres.py:590-650 | in every state of every run, a database that a step of ours takes away is owned by the run's role |
| ProvisioningTheorems.LedgerComesFirst | scripts/provision_pp5_postgres.py:398-402 | without the run's ledger on disk no step of ours touches the server |
| ProvisioningTheorems.ClosedLedgerIsTrue | scripts/provision_pp5_postgres.py:649-654 | whenever the ledger says cleaned, nothing of the run is left on the server |
| ProvisioningTheorems.CleanupFinishes | scripts/provision_pp5_postgres.py:642-659 | a cleanup under way is never refused: among any changes by other clients it finishes and everything of the run is gone |
| ProvisioningTheorems.CleanupRestores | scripts/provision_pp5_postgres.py:642-659 | from any idle world with the ledger, a completed cleanup leaves exactly the foreign databases and roles |
| ProvisioningTheorems.CrashRecovery | scripts/provision_pp5_postgres.py:364-433 | provisioning dies anywhere, a first cleanup dies anywhere, a second completes: nothing was ever done, or the server is exactly as before |
| ProvisioningTheorems.ForeignDatabaseDropped | scripts/provision_pp5_postgres.py:590-650 | at every drop, a run-named database that another client replaced since the ownership check is dropped although another role owns it |
| ProvisioningTheorems.ProvisionActsOnlyIf | scripts/provision_pp5_postgres.py:289-415 | from any world, provisioning changes anything only with a safe run identifier, names that fit, a loopback server, and none of the four databases and not the role present |
| ProvisioningTheorems.ProvisionCompletes | scripts/provision_pp5_postgres.py:364-433 | under these conditions it ends with exactly the four databases of the role, the role, and a completed ledger |
| ProvisioningTheorems.CleanupActsOnlyIf | scripts/provision_pp5_postgres.py:436-452 | from any world, cleanup changes anything only with the run's own ledger for this source, role, names and server, and when every run-named database belongs to the run's role |
| ProvisioningTheorems.CleanupRefusesForeignOwner | scripts/provision_pp5_postgres.py:590-602 | when a run-named database has another owner, cleanup changes nothing |
| ProvisioningTheorems.CleanupDropsOnlyOwned | scripts/provision_pp5_postgres.py:590-650 | from any world and at any point of the cleanup, a database it has taken away was one of the four and belonged to the run's role |
| ProvisioningTheorems.RolesCoincide | scripts/provision_pp5_postgres.py:92-96 | two runs share a role exactly when their identifiers agree with `-` read as `_` |
| ProvisioningTheorems.SharedRoleRefuses | scripts/provision_pp5_postgres.py:344-346 | whatever the first run's provisioning left once its role exists, a second run with the same role name is refused and changes nothing |
| CrashEvidence.EvidenceFile.Invoke | scripts/p15-7-crash-evidence.py:146-179 | an invocation replaces the whole document when everything validates, and otherwise reports the first error and changes nothing |
| CrashEvidence.ValidateTransition | scripts/p15-7-crash-evidence.py:89-121 | the loop over the stored history and the checks after it give the specified first error |
| CrashEvidenceTheorems.RunsAreCoherent | scripts/p15-7-crash-evidence.py:89-173 | over every run of clean calls, whose `phase` and `status` values only repeat those fields, the history is a running prefix with at most one terminal checkpoint, mirrored by the head fields |
| CrashEvidenceTheorems.CoherentIffClean | scripts/p15-7-crash-evidence.py:159-173 | an accepted call keeps the document coherent exactly when its `phase` and `status` values, if any, repeat the call's own |
| CrashEvidenceTheorems.AcceptedExactly | scripts/p15-7-crash-evidence.py:66-121 | on a coherent document a call is accepted exactly when the document is not terminal, the phase is the next of the fourteen or the last one failing, only the end passes, and the identities are in order: a run, forty hexadecimal digits, no stored identity replaced, server and target alike |
| CrashEvidenceTheorems.AcceptedIsRecorded | scripts/p15-7-crash-evidence.py:159-173 | an accepted call appends one checkpoint that holds every value it was given, and every identity given and not blank becomes the document's |
| CrashEvidenceTheorems.PassedMeansAllPhases | scripts/p15-7-crash-evidence.py:15-30 | a passed document went through all fourteen phases once, in order |
| CrashEvidenceTheorems.HistoryIsPrefix | scripts/p15-7-crash-evidence.py:97-113 | the history is a prefix of the phases, but for one repeated last phase when it failed |
| CrashEvidenceTheorems.RunsOnlyExtend | scripts/p15-7-crash-evidence.py:78-82 | over any calls, clean or not, the history is append-only and run, source, server and endpoint never change once set |
| CrashEvidenceTheorems.TerminalAbsorbs | scripts/p15-7-crash-evidence.py:94-96 | a failed or passed document never changes again |
| CrashEvidenceTheorems.BlockedIffNotResumable | scripts/p15-7-crash-evidence.py:160-161 | after an accepted call some later call is accepted exactly when it was a running one and its `phase` and `status` values leave a checkpoint to go on from |
| CrashEvidenceTheorems.TargetMismatchExactly | scripts/p15-7-crash-evidence.py:74-85 | an accepted call lets server and target disagree exactly when a blank value hid one of them |
| CrashEvidenceTheorems.BlankServerIsAccepted | scripts/p15-7-crash-evidence.py:59-85 | every running document with a server accepts such a call |
| FaultProxy.BudgetIsConserved | scripts/p13_5e_fault_proxy.py:69-75 | over every interleaving of handlers, spent plus remaining is the initial budget and a non-negative budget stays so |
| FaultProxy.AppliesExactly | scripts/p13_5e_fault_proxy.py:69-75 | a rule applies exactly when it is not used up, has the request's method and covers its path before the query: as a star, in full, or as a stem followed by a star |
| FaultProxy.SpentWithinBudget | scripts/p13_5e_fault_proxy.py:69-75 | a rule with a non-negative budget is spent at most that often |
| FaultProxy.NegativeBudgetNeverEnds | scripts/p13_5e_fault_proxy.py:74-75 | among any rules, a rule with a negative budget that a request is given is spent by any number of such requests |
| FaultProxy.RecordedWithinBudget | scripts/p13_5e_fault_proxy.py:76-114 | records of faults never outnumber the rule's initial budget, whatever handlers are still running |
| FaultProxy.SequentialNumbers | scripts/p13_5e_fault_proxy.py:70-78 | without overlap, records are numbered one after the other in order of arrival |
| FaultProxy.OverlapRepeatsNumber | scripts/p13_5e_fault_proxy.py:70-71 | in any run, two requests get equal numbers exactly when no handler finishes between their arrivals |
| FaultProxy.DistinctNumbersExactly | scripts/p13_5e_fault_proxy.py:69-114 | the numbers of a run are pairwise distinct exactly when some handler finishes between any two consecutive arrivals |
| FaultProxy.OverlapIsRecorded | scripts/p13_5e_fault_proxy.py:69-114 | two handlers that arrive before either finishes leave two records with one number |
| ArtifactManifest.ReadVarint | scripts/real-host-owned-inventory.py:647-659 | the loop of shifts and bitwise ors computes the base-128 number, and fails exactly where the reference does |
| ArtifactManifest.DecodeOffer | scripts/real-host-owned-inventory.py:683-715 | the field loop computes the specified outcome, including the two ways to fail |
| ArtifactManifest.DecodeArtifactManifest | scripts/real-host-owned-inventory.py:662-726 | header checks, offer and trailer compute the specified outcome |
| ArtifactManifestTheorems.VarintRoundTrip | scripts/real-host-owned-inventory.py:647-659 | with any suffix, decoding inverts encoding exactly for numbers below 2^70 |
| ArtifactManifestTheorems.VarintBounds | scripts/real-host-owned-inventory.py:647-659 | every number read takes one to ten bytes inside the data and is below 2^70 |
| ArtifactManifestTheorems.OfferRoundTrip | scripts/real-host-owned-inventory.py:683-715 | any sequence of well-formed fields, known or unknown, decodes to what they store in order |
| ArtifactManifestTheorems.OfferRecovered | scripts/real-host-owned-inventory.py:683-715 | when known fields occur once each, every one is recovered, whatever the order and the unknown fields between them |
| ArtifactManifestTheorems.OfferRecordRoundTrip | scripts/real-host-owned-inventory.py:633-715 | an offer written with the ten field numbers of the protocol is recovered name by name |
| ArtifactManifestTheorems.StoredUnder | scripts/real-host-owned-inventory.py:633-644 | under which name each number of each wire type is kept; everything else is dropped |
| ArtifactManifestTheorems.HeaderExactly | scripts/real-host-owned-inventory.py:662-682 | a manifest is refused as unparseable exactly when magic, version or length are wrong or its offer is malformed |
| ArtifactManifestTheorems.BadTagIsRefused | scripts/real-host-owned-inventory.py:683-715 | after any well-formed fields an unreadable tag, or one of wire type 3, 4, 6 or 7, refuses the offer |
| ArtifactManifestTheorems.ManifestRoundTrip | scripts/real-host-owned-inventory.py:662-726 | offer, signed state and both counters of every encoded manifest are recovered |
| ArtifactManifestTheorems.TruncatedInnerVarint | scripts/real-host-owned-inventory.py:692-701 | after any well-formed fields, a last varint or length-delimited field makes the decoder raise exactly when its number or length cannot be read |
| Escaping.QuoteRoundTrip | scripts/provision_pp5_postgres.py:78-83 | a quoted identifier or literal ends where it should in any statement and reads back unchanged |
| Escaping.PgpassIsOnePass | scripts/provision_pp5_postgres.py:86-89 | the two replacements in sequence are one pass over the characters |
| Escaping.PgpassRoundTrip | scripts/provision_pp5_postgres.py:172-179 | a line is written exactly when no field has a line break; it is one line, and splitting it at unescaped colons recovers the fields |
| Escaping.MaskIsOnePass | scripts/provision_pp5_postgres.py:560-563 | the three replacements in sequence are one pass over the characters |
| Escaping.MaskRoundTrip | scripts/provision_pp5_postgres.py:560-563 | a mask stays on one line and reads back as the secret |
| Redaction.RedactIsTheOnlyOne | scripts/p13_provider_contract.py:145-177 | the redacted tree is the only tree that hides nothing but secrets, passes the checker and shows no token id |
| Redaction.FixedIffSanitized | scripts/p13_provider_contract.py:145-177 | redaction leaves a tree alone exactly when the checker accepts it and its token objects show no id |
| Redaction.RedactedIsSanitized | scripts/p13_provider_contract.py:145-177 | the checker accepts every redacted tree, in both modes |
| Redaction.RedactIsIdempotent | scripts/p13_provider_contract.py:145-161 | redacting twice is redacting once, in both modes |
| Redaction.SecretNamesExactly | scripts/p13_provider_contract.py:30 | a name is secret exactly when one of the eight spellings of the pattern occurs in it, in either case of each letter |
| Redaction.MemberExactly | scripts/p13_provider_contract.py:145-158 | what redaction makes of each member: hidden under such a name or as a token's id, gone through as a token or plainly otherwise |
| Redaction.CheckerMissesTokenIds | scripts/p13_provider_contract.py:164-177 | the checker accepts token objects with any id in the clear |
| LeakVerdict.SelfComparison | scripts/real-host-leak-verifier.py:319-618 | a comparable snapshot against itself has no leak and no foreign change |
| LeakVerdict.PassesIffClean | scripts/real-host-leak-verifier.py:341-630 | a version 3 pair passes exactly when it is not blocked, free of contradictions, and nothing appeared but expected residue and nothing foreign changed |
| LeakTheorems.PassesExactly | scripts/real-host-leak-verifier.py:244-630 | for pairs of any version, section by section and field by field: a pass is two comparable snapshots, nothing new but residue, nothing foreign changed and, from version 3 on, no contradiction |
| LeakTheorems.LeaksExactly | scripts/real-host-leak-verifier.py:319-542 | which leaks are found, kind by kind, in terms of the rows and names of the two snapshots |
| LeakTheorems.InconsistenciesExactly | scripts/real-host-leak-verifier.py:391-491 | which contradictions are found |
| LeakTheorems.ForeignChangesExactly | scripts/real-host-leak-verifier.py:544-618 | which foreign changes are found |
| LeakVerdict.NoInconsistencies | scripts/real-host-leak-verifier.py:391-491 | no inconsistency is found exactly when no row, binding, domain or link of the later snapshot contradicts the records |
| LeakVerdict.PassesCompose | scripts/real-host-leak-verifier.py:341-630 | two passes in a row are a pass from first to last exactly when the residue the first let through keeps its classification |
| LeakVerdict.NewEntryExactly | scripts/real-host-leak-verifier.py:432-460 | a managed entry that appears between the snapshots is a leak, and spoils a pass, exactly when it is stale or active; it is never an inconsistency |
| LeakVerdict.PassedCountsNothing | scripts/real-host-leak-verifier.py:856-863 | verdicts of passed comparisons contribute nothing to the aggregate's totals |
| LeakVerdict.AggregateVerdicts | scripts/real-host-leak-verifier.py:819-923 | the aggregate is blocked exactly when its inputs are incomplete or of another commit or runner, and passes exactly when every count is zero, every scope passed and the first negative test of each kind was detected |
| LeakComparison.CompareSnapshots | scripts/real-host-leak-verifier.py:212-630 | the lists that grow in loops contain exactly the specified leaks, inconsistencies and foreign changes, and the status follows from them |
| LeakComparison.CollectLeaks | scripts/real-host-leak-verifier.py:319-542 | the listed leaks are exactly the after-only identities that count as leaks |
| LeakComparison.CollectInconsistencies | scripts/real-host-leak-verifier.py:391-491 | the listed inconsistencies are exactly the contradictions of the later snapshot |
| LeakComparison.CollectForeignChanges | scripts/real-host-leak-verifier.py:544-618 | the listed changes are exactly the digests and canaries that differ, without the protected paths |

## Left out

- Inclusion proofs: OpenSSL, X.509, checkpoint signatures and base64; proof hashes are byte strings already decoded.
- SHA-256 itself: an arbitrary function with 32-byte output stands for it.
- RustScope.ClassifyLine: `\bmod\b` treats only ASCII letters, digits and `_` as word characters; non-ASCII identifiers next to `mod` are not modelled.
- RegexPrefixTheorems.AcceptedPrefixIsRequired: the syntax covers literals, escapes, classes, groups, look-around, quantifiers and alternation, with any meaning of `.`, `^`, `$`, escapes and classes; named groups, back-references by name, inline flags and comments are not in it, and metacharacters occur as literals only escaped.
- DependencyCycles.CheckDependencyRegression: the graph is given; reading `cargo metadata` and its error texts are not modelled.
- AdrIndex.ValidateAdrDir: starts from parsed records; front-matter parsing, the index table, link and anchor checks of the documents are not modelled.
- CampaignLock: modelled as steps over a shared path rather than as methods, because other processes act between any two calls; path validation and the owner's pid, host and time are left out.
- Provisioning.Host.Provision: one effect per statement; statement texts, passwords, sentinel contents, terminated sessions, preflight artifacts and URL parsing are not modelled, and a statement either takes effect or is refused.
- CrashEvidence.EvidenceFile.Invoke: document values are strings; the JSON layout, schema fields and the temporary file behind the atomic replacement are not modelled.
- FaultProxy: handlers are steps of a state machine because they interleave; forwarding, responses and request shapes are left out.
- FaultProxy.RecordedWithinBudget: counts a record for its rule whenever the handler spent the rule; rules with an unknown location spend without showing in the record.
- ArtifactManifest.DecodeOffer: text fields are kept as bytes, because UTF-8 decoding with replacement is not injective.
- Escaping.PgpassRoundTrip: the wildcard meaning of a field `*` is not modelled.
- Redaction: numbers are integers and object keys may repeat; the trace document around the values is not modelled.
- LeakComparison.CompareSnapshots: findings are compared as sets, so their order, multiplicity and the contract texts are not modelled; retained counts and pre-existing residue are not either (the source overwrites the former).
- LeakVerdict.AggregateVerdicts: verdict files are given as values; loading them and the copied per-scope figures are left out.
- LeakVerdict: unknown classification tokens and secret-shaped values enter as flags of a snapshot; the two negative-test commands are left out.
- The other validators of the release plans, the capture and inventory scripts, the installer endpoint and build scripts: field lists, I/O or presentation, with one-branch claims.
- `scripts/maintainability-inventory.py`: its search repeats the one proved here.
