# Dafny model of the TIP node's deterministic core

This project models the parts of the TIP protocol node that every node must compute alike, and proves what
they promise. Each module stands beside one source file or one part of it.

- **Authenticated state.** `Hashing`, `Smt`, `SmtProofs`, `SmtFormat`, `ListTree`: the compressed sparse
  Merkle tree and the list tree. The sparse tree is a class whose fields are the source's closure variables,
  tied to a ghost map by a recursive reference tree; the list tree is compared with the recursive
  definitions of RFC 6962. Hashing is an arbitrary function; soundness assumes fixed-width digests and no
  collision among the finitely many strings that were really hashed.
- **Canonical serialisation.** `Texts`, `Json`, `JsonProofs`, `CanonicalTx`, `TxMeaning`, `Printers`,
  `Formats`, `SignedPayload`: the printer that everything is hashed and signed through, a parser that undoes
  it, the older printer behind transaction identifiers, what its texts cover, where the two agree and what
  either writes letter by letter, and the field-stripping rule of signed bodies. Strings are sequences of
  UTF-16 code units.
- **Scores.** `Score`, `ScoreLaw`, `ScoreReplay`, `CommitRows`, `CommitOrder`: one transaction's effect, the
  replay in timestamp order, and the table the commit handler keeps in commit order. `Calendar`,
  `RegCredit`: the rate caps on registration credit.
- **Panels.** `Panel`, `Shuffle`, `PickOrder`, `Selection`, `Reviewer`, `Reviews`, `Eligibility`: the seeded
  shuffle and what a seed does, the pick with its regional cap and score floors, and who may sit as juror,
  expert or reviewer.
- **Disputes.** `Ballots`, `Settlement`, `Appeals` build the two batches the way the source does, by pushing
  entries in loops, and are proved against specification functions. `Ledger` holds the entries and the
  first-wins rule of one item; `ReasonTexts` spells the reasons and `Chain` holds them as texts on a chain
  with many items; `Episodes` strings filing, jury and appeal together; `Outcomes`, `Holders`, `EntryKeys`,
  `Credits`, `Landing`, `PathIndependence`, `Tribunal`, `Verdicts`, `Accounts`, `Offenses`, `OffenseReplay`
  prove what a whole dispute does to everybody, and `Counterexamples` gives the small episodes on which it
  does not go by the verdict that stands.

Protocol constants are parameters, with sign assumptions where a statement needs them. A *standing* (or
effective) verdict is the experts' one if it overturns the jury's or if the jury gave none and the experts
did; it is undecided if neither decided; otherwise it is the jury's.

## Where the code and its comments part

The model follows the code. The comments promise more in these places, and each has a statement below:

- `node/src/jury.js:87-92` (with the early return at `node/src/jury.js:192-194`): the floors are said to
  keep every juror in the verified tier. With fewer candidates than seats everybody is seated, whatever the
  score (`FloorsHoldIff`).
- `node/src/jury.js:376-381`: the panel size is said to be the smaller of pool and seats. It also depends on
  how many reach the lowest floor; it is seed independent all the same (`PanelSizeIgnoresSeed`).
- `node/src/jury.js:780-786`: the two refund paths are said to exclude each other. The filing rule does not
  look at the verdict, so a closed case can be appealed, and both can happen (`KeysDistinctIff`,
  `DisputerSettled`).
- `node/src/jury.js:953-957`: an overturn is said to reverse every settlement of the earlier verdict. The
  exoneration bonus and the clawback have exceptions (`VindicationSettledIff`, `ClawbackSettledIff`).
- `node/src/scoring.js:124-133`: the fallback is said to be identical to what the commit handler writes. The
  table row forgets a revocation (`RowsMatchReplayIff`). Rows are also stepped in commit order, by round and
  then author node (`node/src/consensus/bullshark.js:984-987`), and the replay sorts by timestamp: with -2
  stamped 2 committed before +1 stamped 1 at the top of the range the row is one above the replay
  (`OrderHarmlessIff`, `LateStampsPart`).
- `node/src/score-effects.js:240-252`: the count is said to be the final offense state. The sorted replay
  can keep an offence of an overturned verdict if the appeal is stamped first (`ReplayCountIff`,
  `EarlyAppealMiscounts`).
- `node/src/consensus/commit-handler.js:559-561`: the award cap is called authoritative at commit time. It
  is off for awards stamped before the activation and asks only for some room (`DayCapIff`, `MonthCapIff`).
- `shared/smt.js:15-17`: absence is said to be as provable as membership. A proof that ends in empty space
  is accepted for every key, because the fold takes its directions from the proof
  (`NullProofUnsoundOffPath`).
- `shared/crypto.js:512-521`: the text is said to cover the three fields. A key named `__proto__` is lost
  when objects are rebuilt, and nothing else is (`TxTextIff`, `ProtoUnseen`).

## Model

| member | source | states |
|---|---|---|
| Smt.TextBitIsBit | shared/smt.js:31-34 | the bit read from the hexadecimal text of a key is that bit of the 256-bit key, at every depth |
| Smt.HexInjective | shared/smt.js:31-34 | different keys have different texts |
| Smt.SplitBuilds | shared/smt.js:70-80 | splitting two leaves ends, and gives the canonical tree of exactly those two keys |
| Smt.SparseMerkleTree.constructor | shared/smt.js:46-49 | a new tree holds the empty map |
| Smt.SparseMerkleTree.SetAt | shared/smt.js:51-68 | inserting below any node gives the canonical tree of the updated map and counts a new key exactly once |
| Smt.SparseMerkleTree.DeleteAt | shared/smt.js:82-102 | deleting below any node collapses back to the canonical tree of the map without the key; it reports whether the key was there and counts it exactly once |
| Smt.SparseMerkleTree.Set | shared/smt.js:105-107 | the map gains or changes one key; structure and size stay those of the map |
| Smt.SparseMerkleTree.Remove | shared/smt.js:110-114 | the map loses one key, and the result says whether it was there |
| Smt.SparseMerkleTree.Clear | shared/smt.js:124-127 | the map is empty again |
| Smt.SparseMerkleTree.GetProof | shared/smt.js:135-150 | the loop returns the path of the key through the current tree |
| SmtProofs.VerifySMTProof | shared/smt.js:161-184 | the method accepts exactly what the recursive definition of a verifying proof accepts |
| SmtProofs.ProofsComplete | shared/smt.js:135-184 | the proof returned for any key verifies against the current root, with the key's value if present and as absence if not, and its directions are the key's bits |
| SmtProofs.VerifiedTerminal | shared/smt.js:161-184 | a verified proof names every key of the map that lies along its directions |
| SmtProofs.InclusionSound | shared/smt.js:161-184 | without hash collisions a verified inclusion proof means the map holds that key with that value, whatever strings the proof carries |
| SmtProofs.NonInclusionSound | shared/smt.js:161-184 | a verified absence proof means the key is absent; one that ends in empty space must have followed the key's own bits |
| SmtProofs.NullProofUnsoundOffPath | shared/smt.js:172-183 | that proviso is exact: for any other directions, fewer than 256 of them, some map holds the key and a proof with those directions verifies its absence |
| SmtProofs.NullProofTooLong | shared/smt.js:172-183 | with 256 siblings or more no proof that ends in empty space verifies, whatever the map and the directions |
| SmtProofs.EqualRootsEqualTrees | shared/smt.js:36-44 | equal root hashes mean equal trees |
| SmtProofs.RootDeterminesMap | shared/smt.js:116-118 | two roots are equal if and only if the key-value maps are |
| SmtFormat.RootIsHash | shared/smt.js:28-44 | the root of every map as hashes of texts alone: the word for nothing, a key's 64 digits and its value behind L, two halves behind N, split by the highest bit of the next digit |
| SmtProofs.Replay | shared/smt.js:104-127 | any sequence of set, remove and clear leaves the map it describes |
| SmtProofs.HistoryIndependence | shared/smt.js:5-8 | two histories that leave the same map end with the same structure, root and size, and with different roots if they leave different maps |
| Hashing.NodePreimageInjective | shared/merkle.js:29-31 | two inner nodes with the same text have the same children |
| Hashing.DomainsDisjoint | shared/merkle.js:25-31 | a leaf is never hashed from the text of an inner node |
| ListTree.BuildLevels | shared/merkle.js:39-53 | the level-by-level loop with promotion yields levels that all have the tree hash of section 2.1 of RFC 6962, the last one being the root alone |
| ListTree.ComputeRoot | shared/merkle.js:63-68 | for every list the root is that tree hash, or the chosen sentinel if the list is empty |
| ListTree.NextLevelAt | shared/merkle.js:39-53 | each place of the next level holds the node over two neighbours, or the last node itself when it has none |
| ListTree.NextLevelKeepsMTH | shared/merkle.js:39-53 | pairing up one level keeps the tree hash |
| ListTree.NextLevelKeepsPATH | shared/merkle.js:78-97 | the audit path in one level is its step there followed by the path in the next |
| ListTree.GetProof | shared/merkle.js:78-97 | null exactly when the index is out of range, else the audit path PATH(m, D[n]) of section 2.1.1 of RFC 6962 |
| ListTree.VerifyProof | shared/merkle.js:108-116 | the loop folds the steps from the leaf and compares with the root |
| ListTree.PathFolds | shared/merkle.js:78-116 | the audit path of every index folds to the tree hash |
| ListTree.PathLength | shared/merkle.js:78-97 | an audit path has at most ceil(log2 n) steps |
| ListTree.CeilLog2IsLeast | shared/merkle.js:78-97 | that number of steps is the least e with 2^e at least n |
| ListTree.ProveAndVerify | shared/merkle.js:39-116 | every item of every list can be proved against the root and the proof verifies |
| ListTree.ProofSound | shared/merkle.js:108-116 | without hash collisions a verified proof for a raw item means the item is in the list |
| ListTree.EqualRootsEqualLists | shared/merkle.js:11-13 | equal roots of raw-item lists mean equal lists, of whatever lengths |
| ListTree.InnerNodePassesAsLeaf | shared/merkle.js:108-116 | with leaves hashed beforehand an inner node passes for a leaf, so soundness needs raw items |
| JsonProofs.RoundTrip | shared/crypto.js:558-573 | a parser written from section 7 of RFC 8259 recovers the meaning of any value from its canonical text followed by any rest that does not run on into a number |
| JsonProofs.CharsRoundTrip | shared/crypto.js:569-572 | every string, with lone surrogates and control characters, survives escaping and parsing |
| JsonProofs.TextIffMeaning | shared/crypto.js:558-573 | two values have the same text if and only if they mean the same, key order and undefined fields disregarded |
| JsonProofs.KeyOrderInvisible | shared/crypto.js:570-572 | objects with the same fields in different orders print alike |
| JsonProofs.ThrowsIffMisplaced | shared/crypto.js:558-567 | the printer throws on exactly the values with undefined outside an object field |
| Texts.LessIsPrecedes | shared/crypto.js:502-502 | the comparison of texts is the order of positions: a proper prefix first, else the smaller code unit at the first place where they differ |
| Formats.LiteralsPrinted | shared/crypto.js:558-573 | null, true, false, the empty array and the empty object, letter by letter |
| Formats.ScalarsPrinted | shared/crypto.js:558-573 | a number is its digits with a minus in front if negative, a string its escaped units between quotes |
| Formats.DigitsAreNumeral | shared/crypto.js:558-573 | the digits of a number are decimal, have its value and no leading zero |
| Formats.ShortestEscape | shared/crypto.js:569-572 | each unit is written in the one shortest way that parses back, without a lone surrogate and with small hexadecimal digits |
| Formats.EscapesConcat | shared/crypto.js:569-572 | a string is written unit by unit, whatever is around, but for a surrogate pair |
| Formats.EscapesStart | shared/crypto.js:569-572 | and a pair is written as it stands |
| Formats.ArrayPrinted | shared/crypto.js:564-568 | an array's text: brackets, and the texts of its elements in order with commas between |
| Formats.ObjectPrinted | shared/crypto.js:569-573 | an object's text: braces, and a member for each defined field with commas between, in the order of the keys' code units |
| CanonicalTx.UndefinedSlot | shared/crypto.js:523-529 | with undefined in an array slot one printer throws and the other does not |
| TxMeaning.StringifyParses | shared/crypto.js:523-529 | the parser recovers the meaning of every rebuilt value from the text that is printed for it, undefined slots and index-like keys included |
| TxMeaning.TextCoversAllButProto | shared/crypto.js:499-529 | for all values: two have the same text if and only if they mean the same once the fields named __proto__ are left out at every depth |
| TxMeaning.TxTextIff | shared/crypto.js:523-541 | so the text behind a transaction's identifier covers its three fields, all of them but what is named __proto__ inside, and nothing else |
| TxMeaning.SameTextSameTransaction | shared/crypto.js:523-541 | two transactions without such a field have the same text if and only if their three fields mean the same |
| TxMeaning.ProtoUnseen | shared/crypto.js:499-509 | any object can gain a field __proto__, at any place and with any value, and print as before |
| TxMeaning.IndexInjective | shared/crypto.js:501-504 | index-like keys of equal value are one key, so the order in which an object lists its keys is a function of the key set |
| Formats.IndexKeysAre | shared/crypto.js:501-504 | the index-like keys are exactly the decimal numerals below 2^32 - 1 |
| Formats.RebuiltPrinted | shared/crypto.js:499-529 | the text of any rebuilt object: a member for each defined field but __proto__, indices first by value, then the other keys by their code units |
| Formats.TxTextSpelled | shared/crypto.js:523-529 | the text behind every identifier, letter by letter: data, timestamp and tx_type in this order |
| Printers.PrintersAgreeIff | shared/crypto.js:499-573 | for every value: the two printers give one text if and only if, wherever it prints, no slot is undefined, no key is __proto__ and the keys sort as text the way they are listed |
| Printers.TxTextIsCanonicalIff | shared/crypto.js:523-573 | a transaction's text is the canonical text of its three fields if and only if that holds of what they contain |
| Printers.IndexKeysSwap | shared/crypto.js:499-573 | any object with two printed index-like keys that sort one way as text and the other way as numbers prints differently |
| Printers.TenAndNine | shared/crypto.js:499-573 | 10 and 9 are two such keys |
| SignedPayload.BuildSignedPayload | shared/crypto.js:596-608 | an exception exactly if a required field is missing or null, else exactly the listed fields that are present |
| SignedPayload.RebuildPayload | shared/crypto.js:615-620 | the verifier's loop keeps exactly the listed fields that are present |
| SignedPayload.StrippedTextsAgree | shared/crypto.js:596-621 | payloads stripped from objects that agree on the listed fields have the same text |
| SignedPayload.TextCoversListedFields | shared/crypto.js:596-621 | the texts are the same if and only if the objects agree in meaning on every listed field: all of them are covered and nothing else |
| SignedPayload.VerifyBodySignature | shared/crypto.js:615-621 | verification checks the signature over the text of the stripped payload |
| SignedPayload.SignThenVerify | shared/crypto.js:583-621 | a signature over the signer's payload is accepted for every body that matches on the signed fields, with any extra fields and in any field order |
| Score.RunInRange | node/src/score-effects.js:131-284 | over every run the score stays between 0 and the maximum and the offence count never goes negative |
| ScoreLaw.RunLaw | node/src/score-effects.js:131-284 | over every history the score is the initial one plus what each transaction is worth where it stands, kept in range at every step; the identity is frozen exactly if a revocation of any of the four kinds came, and linked to exactly the platforms ever linked |
| Score.FrozenNeverRises | node/src/score-effects.js:265-279 | once frozen always frozen, and the score never rises again |
| Score.LinkBonusExact | node/src/score-effects.js:158-177 | a run pays the link bonus once for each distinct platform linked before the freeze, up to the maximum number of accounts |
| Score.PenaltiesEscalate | node/src/score-effects.js:308-350 | a penalty is never a reward, needs an upheld verdict, and never softens with earlier offences |
| Score.PenaltyTable | node/src/score-effects.js:308-350 | an upheld verdict charges exactly for declaring less machine work than is confirmed, each pair of origins by its own ladder, the first, second or third rung by the earlier offences; failing that, for a falsehood |
| ScoreReplay.ComputeScore | node/src/scoring.js:45-82 | the loop yields the fold of the sorted transactions that target the identity, with one history entry for each |
| ScoreReplay.PrefilterComplete | node/src/scoring.js:46-62 | fetching by tip_id or author_tip_id never drops a transaction that targets the identity |
| ScoreReplay.ReplayIsSortedFold | node/src/scoring.js:45-82 | the replay is the fold of the identity's own transactions in timestamp order |
| ScoreReplay.ReplayIsScoreOf | node/src/scoring.js:45-82 | on a log in timestamp order the replay is the fold of the log |
| ScoreReplay.Incremental | node/src/score-effects.js:61-122 | routing a whole log through the step function gives every identity the state its own fold gives |
| ScoreReplay.ReplayForgetsOrder | node/src/scoring.js:46-49 | stores that agree on the order within each instant replay alike, however they list the rest |
| ScoreReplay.TiesCanDiffer | node/src/scoring.js:48-49 | within one instant the order can change the score, for any parameters with a maximum above zero |
| ScoreReplay.HistoryEndsAtScore | node/src/scoring.js:65-74 | the last history entry shows the final score |
| CommitRows.ApplyCommitted | node/src/consensus/commit-handler.js:2228-2261 | one committed transaction keeps the table the row-wise fold of the log |
| CommitRows.RowsMatchReplayIff | node/src/consensus/commit-handler.js:2232-2235 | on a log committed in timestamp order, table and sorted replay agree throughout if and only if no credit that could still move the score follows a revocation |
| CommitRows.RowsNeverBelowReplay | node/src/consensus/commit-handler.js:2228-2261 | on every such log they agree on offences and the table never shows a lower score |
| CommitRows.FreezeIsForgotten | node/src/consensus/commit-handler.js:2232-2235 | a revocation followed by a credit sets them apart |
| CommitRows.GetScore | node/src/scoring.js:136-143 | row or no row, for every log, the answer is the row-wise fold; on a log in timestamp order without such a credit it is the replayed score |
| CommitOrder.OrderHarmlessIff | node/src/consensus/bullshark.js:984-987 | every commit order of a block of score entries gives an unfrozen identity the same row and the same replay if and only if all entries pull one way or their sums stay within the range |
| CommitOrder.LateStampsPart | node/src/scoring.js:48-49 | two score entries committed against the order of their timestamps leave the row below the replay, or above it, without any revocation |
| Calendar.DatesRoundTrip | node/src/reg-credit.js:22-22 | day numbers and Gregorian dates determine each other |
| Calendar.BackToTheFirst | node/src/reg-credit.js:22-22 | going back by the day of the month less one lands on day 1 of the same month |
| Calendar.YearStartClosedForm | node/src/reg-credit.js:22-22 | the day on which a year starts has the closed form of ECMA-262 (DayFromYear) |
| Calendar.MonthStartClosedForm | node/src/reg-credit.js:22-22 | the days before a month have the closed form of 367 twelfths of a day, less what February lacks |
| RegCredit.MonthWindowIsCalendarMonth | node/src/reg-credit.js:21-22 | the month window opens on day 1 of the same month if and only if the ISO field read is the day of the month, that is up to the year 9999 |
| RegCredit.CapsHold | node/src/reg-credit.js:20-42 | if every award fits the remaining room, then in any timestamp order no day, and no month up to the year 9999, exceeds its cap, and the net exceeds the lifetime total by no more than the restores |
| RegCredit.MonthKeptIff | node/src/reg-credit.js:20-42 | such awards keep the cap of a month if and only if the month is of the year 9999 or earlier |
| RegCredit.DayCapIff | node/src/consensus/commit-handler.js:562-571 | the guard the commit handler uses, room above zero from the activation on, keeps the cap of a day on every run if and only if the base award is one and the day begins at or after the activation |
| RegCredit.MonthCapIff | node/src/consensus/commit-handler.js:562-571 | the same for the cap of a month, up to the year 9999 |
| RegCredit.CommitGuardBounds | node/src/consensus/commit-handler.js:562-571 | for any base and any activation, a day, a month or a lifetime never passes the larger of what it held before its last unguarded award and its cap with all but one unit of a base award |
| RegCredit.RestoreCanPassTotal | node/src/jury.js:882-890 | restores are not capped: under any caps with room for an award a run that restores only what was reversed passes the total |
| RegCredit.PrefixesDisjoint | shared/constants.js:1140-1142 | award, reversal and restore reasons are told apart by prefix |
| Panel.SeededShuffle | node/src/jury.js:53-61 | the in-place swaps compute the recursive shuffle; every index is in bounds |
| Panel.ShufflePermutes | node/src/jury.js:53-61 | the result is a permutation, for every seed |
| Shuffle.ShuffleDraws | node/src/jury.js:53-61 | the swaps draw without replacement from the last place down, the seed's byte for the place picking among what is left |
| Shuffle.OrderTellsDraws | node/src/jury.js:56-58 | of a list without repeats two seeds make the same order if and only if their entries agree modulo i + 1 at every place i above 0 |
| Shuffle.EveryOrder | node/src/jury.js:53-61 | every order of every list comes out for some seed with an entry per place |
| Panel.PickWithGeoCap | node/src/jury.js:108-150 | the loops with early returns compute the passes; a count of zero never stops them and everybody at the lowest floor is taken |
| Panel.PickHonoursFloors | node/src/jury.js:108-150 | the panel is filled as far as the lowest effective floor allows, nobody sits twice, and nobody below a floor sits while somebody who reaches it was passed over |
| Panel.CapRelaxedOnlyWhenInfeasible | node/src/jury.js:108-134 | the panel is full, above the main floor and within the regional cap if and only if such a panel exists at all, for every shuffle |
| PickOrder.PickInTurn | node/src/jury.js:108-150 | nobody sits while somebody of the same region and no worse a score, drawn earlier, is passed over |
| PickOrder.PickTakesFirst | node/src/jury.js:108-150 | where everybody reaches the main floor and no region can reach the cap, the panel is the first of the draw, in that order |
| PickOrder.LowestIsLeast | node/src/jury.js:137-139 | the lowest effective floor is the least of all |
| Selection.SelectionForgetsOrder | node/src/jury.js:164-267 | selection is the same for every order in which the store lists the identities |
| Selection.PanelSizeIgnoresSeed | node/src/jury.js:164-267 | the number of seats filled is a fixed function of the candidates, the same for every seed |
| Selection.OnlyEligibleSit | node/src/jury.js:177-189 | only distinct identities that pass every hard exclusion sit, earlier jurors never on an expert panel |
| Selection.PartiesNeverSit | node/src/jury.js:177-178 | neither party sits on the jury, and neither they nor a summoned juror on the expert panel |
| Selection.FloorsHoldIff | node/src/jury.js:192-202 | everybody seated reaches the lowest floor if and only if there are at least as many candidates as seats, or all candidates reach it |
| Selection.CandidatesAre | node/src/jury.js:177-190 | the candidates are exactly the eligible identities with their scores, sorted, each once |
| Eligibility.CandidatesSpelled | node/src/jury.js:177-190 | they are the people who consented to the role and are neither revoked nor barred, with score and region on record, in the order of their ids' code units |
| Eligibility.JurySpelled | node/src/jury.js:164-204 | a jury seats all the eligible if they are too few, else as many of those who reach the lower of its two floors as there are seats; only people who consented to juries, no party and nobody revoked |
| Eligibility.ExpertsSpelled | node/src/jury.js:210-267 | experts likewise, with their own consent, three floors, and without anybody the jury had summoned |
| Eligibility.JuryDiverseIff | node/src/jury.js:108-204 | a jury is full, all at the jury's main score and no region over the jury's cap if and only if some set of eligible people of that size is, for every seed |
| Eligibility.ExpertsDiverseIff | node/src/jury.js:108-267 | the same for experts with their own constants |
| Eligibility.JurySeniorsFirst | node/src/jury.js:124-148 | with enough eligible people nobody below the jury's main score sits while somebody eligible who has it is left out |
| Eligibility.ExpertSeniorsFirst | node/src/jury.js:124-148 | nor among experts, at their main score and at their second one if it is lower |
| Eligibility.PanelIsDrawn | node/src/jury.js:167-202 | where score and region bind nobody, the panel is the first of the draw that transaction and number of identities seed |
| Reviewer.CountNoShows | node/src/reviewer-selection.js:113-128 | the loop counts the no-shows among the first resolved assignments of the sample |
| Reviewer.NeutralSlot | node/src/reviewer-selection.js:117-123 | an open or claimed-over assignment anywhere in the history changes nothing |
| Reviewer.MeasureAccuracy | node/src/reviewer-selection.js:65-100 | the loop returns the share of right calls among the first decisions with a known outcome, and 1 without any |
| Reviewer.IsEligibleReviewer | node/src/reviewer-selection.js:135-166 | a tip id is eligible if and only if it is in the pool of pass 1 |
| Reviewer.PoolMembers | node/src/reviewer-selection.js:191-235 | a pool holds exactly the registered identities that pass the hard filters and the pass's own conditions |
| Reviewer.AssignmentForgetsOrder | node/src/reviewer-selection.js:191-223 | the assignment is the same for every order of the identities |
| Reviewer.AssignsFromFirstPass | node/src/reviewer-selection.js:205-242 | the first pass with anybody in it assigns one of them; pass and pool size do not depend on the seed |
| Eligibility.NoShowsAre | node/src/reviewer-selection.js:113-128 | no-shows are the expired recusals among the first n assignments that ended, told by positions in the record |
| Eligibility.AccuracyIs | node/src/reviewer-selection.js:65-100 | accuracy is the share that came out as the reviewer had it among the first n decisions with an outcome, told by positions in the record |
| Eligibility.PoolSpelled | node/src/reviewer-selection.js:191-235 | a pool holds exactly the people who consented to review, are not the author, not revoked and not over the no-show limit, and have the pass's score and accuracy |
| Eligibility.ReviewerIsDrawn | node/src/reviewer-selection.js:205-242 | the first of the draw from the first pool with anybody in it, taken in the order of ids |
| Ballots.CountMajorityOrigin | node/src/jury.js:297-304 | the counting loop and the stable sort yield the plurality origin |
| Ballots.MajorityOriginLeads | node/src/jury.js:297-304 | that origin is named most often, first mentioned first among equals; without a vote for any it is the claimed one |
| Ballots.Decide | node/src/jury.js:472-485 | half of the votes plus one is reached exactly by the larger side |
| Verdicts.JuryDecides | node/src/jury.js:335-485 | counted over people: a jury decides if and only if enough voted in time, enough took a side and the sides differ; it dismisses if and only if more found a match, labels too cautious if and only if the confirmed origin is human and AI work was declared, and upholds in the remaining case |
| Verdicts.ExpertsRule | node/src/jury.js:711-842 | the same for experts, whose draw or want of votes is a default, and who overturn exactly by turning upheld into dismissed or back |
| Verdicts.ConfirmedIsPlurality | node/src/jury.js:297-304 | the confirmed origin is named by the most people who found a mismatch in time, and before any other named by as many |
| Verdicts.InTimeSplits | node/src/jury.js:36-47 | each reveal counts or does not by itself: with no deadline always, else if stamped and not after it; those that count keep their order |
| Verdicts.LateIsNeutral | node/src/jury.js:36-47 | a reveal without a time or after the deadline, inserted anywhere, changes neither stage's batch |
| Verdicts.JuryPenalty | node/src/jury.js:492-500 | a jury charges a known author for an upheld dispute, by the declared and the confirmed origin and the earlier offences, and nobody otherwise |
| Verdicts.ExpertPenalty | node/src/jury.js:823-830 | experts do so if the jury had dismissed or not decided |
| Settlement.BuildAdjudicationBatch | node/src/jury.js:337-691 | the batch pushed step by step is the specified one: result, entries, and for an escalation the appeal and the summons |
| Settlement.PushJuryRuling | node/src/jury.js:472-691 | the entries of a decisive jury verdict, in order |
| Settlement.PushAbsences | node/src/jury.js:424-435 | one penalty for each silent juror, by whether a vote was committed |
| Appeals.BuildAppealBatch | node/src/jury.js:711-1141 | the same for the experts' batch: default, overturn, first verdict or confirmation |
| Tribunal.ConfirmedOriginLeads | node/src/jury.js:297-304 | the origin a jury's result confirms is the one its mismatch votes name most often, the first named among equals |
| Tribunal.EscalatesOrEnds | node/src/jury.js:366-469 | without a decision the batch either closes the case and files no appeal, or files one followed by summons for at least the experts a ruling needs |
| Tribunal.SeedsAgree | node/src/jury.js:380-404 | nodes whose panels come from different seeds build the same result and the same score entries |
| ReasonTexts.TextsDiffer | node/src/jury.js:442-1133 | two reasons on an item have the same text if and only if they are the same reason, of the same panel and the same review |
| ReasonTexts.OnlyAwardsAward | shared/constants.js:1140-1142 | no other reason of a dispute starts the way an award does |
| Chain.Accept | node/src/consensus/commit-handler.js:543-574 | entry by entry validation against the log and the batch so far, with the pass for an empty person or reason and the award cap, is the fold that refuses repeated texts |
| Chain.NextArrives | node/src/consensus/commit-handler.js:543-574 | an entry with a person and a reason is dropped if and only if that person has one on the item for that reason or the cap is reached; one without either always lands |
| Chain.ArriveRefines | node/src/consensus/commit-handler.js:543-574 | on a chain with any other items, the entries of a dispute, as texts, fare exactly as first-wins dropping by reason says, and no other item is touched |
| Chain.EpisodeOnChain | node/src/consensus/commit-handler.js:543-574 | so the batches of a dispute leave on the chain, in texts, exactly what lands in its ledger |
| Chain.CompetingOnChain | node/src/jury.js:323-327 | and any mixture of the batches of several nodes leaves each entry of one once |
| Chain.TextsDistinctIff | node/src/jury.js:787-801 | the texts of an episode are pairwise distinct for each person if and only if the disputer is not refunded by both stages |
| Ledger.CompetingBatches | node/src/jury.js:323-327 | several copies of a batch whose keys tell its entries apart, mixed in any way on any log, leave the log as one copy does |
| Tribunal.CompetingJuryBatches | node/src/jury.js:323-327 | this holds for the jury's batch of every well-formed dispute |
| Tribunal.CompetingAppealBatches | node/src/jury.js:700-704 | and for the experts' batch of every episode, also where the disputer had a refund before |
| Landing.EverythingLands | node/src/consensus/commit-handler.js:543-556 | every entry of an episode is accepted, none is mistaken for another |
| Landing.KeysDistinctIff | node/src/jury.js:787-801 | the keys of an episode are pairwise distinct if and only if the disputer is not refunded by both stages |
| Landing.SecondRefundDropped | node/src/jury.js:787-801 | in that one case the second refund is dropped and everything else lands |
| PathIndependence.CourseDecides | node/src/jury.js:521-1107 | the sum on every side depends on the verdicts and penalties alone |
| PathIndependence.DisputerSettled | node/src/jury.js:437-1053 | over filing and both stages the disputer nets the bonus, nothing, minus the stake, or nothing if undecided, as the standing verdict says; one stake more if and only if a closed case was reopened and decided |
| PathIndependence.PenaltySettled | node/src/jury.js:521-1063 | the author's penalties cancel unless the standing verdict is upheld; then that verdict's own penalty is left |
| PathIndependence.ReviewerSettled | node/src/jury.js:612-1084 | the escalating reviewer keeps the bonus if and only if the standing verdict found something wrong |
| PathIndependence.AppellantSettled | node/src/jury.js:893-907 | the appellant nets the overturn bonus, nothing if no result, or minus the stake |
| PathIndependence.SameVerdictSameSettlement | node/src/jury.js:521-1107 | two routes to the same standing verdict settle alike |
| PathIndependence.VindicationSettledIff | node/src/jury.js:671-687 | the author's exoneration bonus follows the standing verdict if and only if an overturned verdict also moved a penalty and the experts did not dismiss after a jury without a result |
| PathIndependence.ClawbackSettledIff | node/src/jury.js:647-669 | the clawback from a reviewer who had dismissed the flag follows the standing verdict if and only if that verdict did not come from overturning a dismissal, or nothing is due |
| PathIndependence.CreditSettled | node/src/jury.js:865-891 | the author's registration credit ends at nothing or at what was awarded, by the last verdict given |
| Credits.CreditAfterJury | node/src/jury.js:535-551 | after the jury it is nothing if upheld, else what was awarded |
| Credits.CreditReconciled | node/src/jury.js:865-891 | on any log the experts' entry leaves exactly the credit the verdict allows, and built again it adds nothing |
| Holders.EntriesReachTheirHolders | node/src/jury.js:521-1107 | every entry of both batches is addressed to the account it settles: disputer, author, appellant or the reviewer concerned |
| Accounts.EntriesCarryTheirAmounts | node/src/jury.js:424-1137 | every entry of an episode carries the amount that its reason stands for |
| Accounts.AssignedIs | node/src/jury.js:612-669 | the reviewer an entry concerns is the one on the first review record in that state |
| Accounts.ReviewerAccount | node/src/jury.js:612-1084 | that escalating reviewer nets the bonus if the standing verdict is upheld or too cautious, and nothing otherwise |
| Accounts.ExonerationAccount | node/src/jury.js:671-974 | the author's exoneration bonus in full: paid by the jury's dismissal, taken back by an overturn that penalises, paid by one that lifts a penalty |
| Accounts.ClawbackAccount | node/src/jury.js:647-1084 | the dismissing reviewer's clawback in full: charged by an upheld verdict of the jury or a first one of the experts if nobody escalated, lifted by an overturn |
| Accounts.CreditIsTotal | node/src/jury.js:535-545 | credit is the sum of that person's awards, reversals and restores |
| Accounts.CreditAccount | node/src/jury.js:865-891 | after an episode it is nothing if the last verdict given is upheld, else all that was awarded |
| Verdicts.JurorPaid | node/src/jury.js:424-582 | over the jury's batch each person nets the bonus for a vote in time that the verdict bears out and minus the penalty for one it does not, nothing for abstaining or if the jury does not decide, and minus the penalty for silence, with or without a committed vote, if summoned |
| Verdicts.ExpertPaid | node/src/jury.js:766-1137 | the same for experts over the appeal's batch, by the experts' own verdict |
| Counterexamples.ReopenedCase | node/src/validators/business-rules.js:733-758 | a closed case can be appealed by a party: then the refunded stake stays refunded after a dismissal, and no exoneration bonus is paid |
| Counterexamples.OverturnedDismissal | node/src/jury.js:999-1027 | an overturned dismissal leaves the dismissing reviewer's bonus untouched |
| Offenses.BuildersSucceed | node/src/jury.js:827-863 | the experts' result carries the jury's verdict and the overturn flag that follows from the two |
| Offenses.OffensesAreUpheldItems | node/src/score-effects.js:200-258 | in every interleaving of disputes the offence count, stepped in commit order, is the number of items on which a dispute stands upheld |
| Offenses.GuardNeverSuppresses | node/src/score-effects.js:247-252 | in commit order an overturned conviction always finds an offence to take back, and takes it back |
| OffenseReplay.ReplayCountIff | node/src/scoring.js:45-82 | the offence count of the sorted replay is the number of upheld items if and only if the guard refuses no decrement in timestamp order |
| OffenseReplay.ReplayCountsUpheldItems | node/src/scoring.js:45-82 | it refuses none, and the replayed count is right, whenever every appeal result is stamped no earlier than its item's verdict |
| OffenseReplay.EarlyAppealMiscounts | node/src/scoring.js:48-49 | otherwise a replayed offence can remain that no upheld item stands behind |

## Left out

- JsonProofs.RoundTrip: numbers are integers, printed in full; JavaScript switches to exponent notation from 1e21 on and has fractions, which are not modelled. NaN and the infinities are one value that prints as null.
- SmtProofs.VerifySMTProof: takes a typed proof whose terminal is a leaf or null; a malformed terminal object is not modelled.
- ListTree.VerifyProof: takes typed steps; the check that a step's hash is a string is not modelled.
- RegCredit.CapsHold: states the cap of a month up to the year 9999 only; MonthKeptIff shows that it fails later.
- RegCredit.MonthKeptIff: passes over caps under which a month could not be filled in sixteen days or the total leaves no unit beyond it.
- Chain.ArriveRefines: the award cap enters as any verdict on awards; the cap itself is RegCredit's. Score entries from outside disputes on the same item are assumed to be spelled like none of a dispute's.
- PathIndependence.CourseDecides: a well-formed episode is assumed: one dispute per item, each juror summoned once and revealing at most once, author and disputer known, no earlier dispute entries on the item. Reviews do not change between the two stages.
- Pending appeals: the sums are stated for settled episodes; while an escalation is open the stake is simply held.
- The classifier result, log lines, wall-clock times, deadlines, transaction ids and signatures inside the batches. They differ between nodes and nothing stated here depends on them. The vote lists and the content status inside result transactions are informational and not modelled.
- SHAKE-256, ML-DSA, SLH-DSA and Groth16: hashing, signing and verification are parameters.
- Consensus, the store, snapshot sync, services, the API and the rest of the commit handler. Only first-wins dropping, the score table, the credit guard and the filing stakes are taken from there.
- The tiers, the jury eligibility helper, profile and organization schemes, encoders and constant tables: short table code without a property of its own.
- The circuits, the command line tools, the scripts and the Python package.
