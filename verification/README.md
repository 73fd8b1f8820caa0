# A verified model of quix

quix is a peer-to-peer overlay network: a coordinator admits machines with one-time invites, hands out hostnames, and
pushes the roster to every member; a local resolver answers for `.quix`; and members send each other files straight
through their daemons. This project models the parts of it where something can go wrong between several functions, or
between several machines, and proves what they promise, for every input, every run and every interleaving.

`dafny verify dfyconfig.toml` checks everything.

## How it is laid out

| files | what they model |
|---|---|
| `Basics`, `Text`, `Utf8`, `Runs` | results and options; decimal numerals, trimming, ASCII case; UTF-8 (RFC 3629, section 3) with replacement of malformed bytes; runs of a state machine and their induction principle |
| `Quoting` | the Windows command-line quoter, against the splitter that stands for how Windows takes a line apart |
| `Frames`, `ReadAhead` | the frame codec, and the reader that decodes ahead into a bounded channel |
| `Names`, `FileName` | DNS labels (RFC 1123 section 2.1, RFC 1035 section 2.3.4), their de-duplication, and numbered file names |
| `Membership`, `Naming`, `Trust`, `HexTokens`, `Invites` | one node's table: its operations, what they all keep, trust on first use, how invites are saved, and what an invite is good for |
| `Dns`, `Network`, `Agreement`, `Resolution` | the resolver; a coordinator and its members over lossy, reordering messages; what they agree on, at one moment and over time |
| `Registration`, `Shutdown` | backoff in 32-bit arithmetic, and the race of the retry against shutdown |
| `Registry`, `Bookkeeping`, `Offers`, `Arrivals`, `Sending` | the table of file offers, and the concurrent tasks that share it, one lock acquisition at a time |
| `Receive`, `Send`, `Relay`, `Transfer`, `Delivery`, `Loops` | the ends and the middle of a file transfer as loops, the four parties together as steps, and that the loops are those steps run to a standstill |

A component whose fields the program changes in place is a class; each of its methods is proved equal to a function of
the old state, and the properties are proved about those functions. Concurrency is a step relation: every step is one
lock acquisition, one message or one poll, and a theorem about a run quantifies over every list of steps each of which
is enabled where it happens. A write that fails is its party giving up, after the write if something got through and
before it if nothing did.

## What the proofs found

- The name de-duplication hands out is a taken one exactly when the request, all 9,999 numbered candidates and the
  untested last resort are taken. At most 9,999 taken names can never defeat it. 10,000 can: a 63-character label can
  be one of its own candidates (`SomeLabelIsItsOwnCandidate`, `DedupeBoundIsSharp`).
- Agreement across the network survives a step if and only if the step moves no name anyone holds or may yet be told of
  (`AgreementSurvivesExactly`). The program can move one in these ways, each with a run from nothing in which it does.
  Leaving its own network, or joining another, the coordinator forgets the names it bound (`ResigningForgets`,
  `JoiningElsewhereForgets`). Creating a network again keeps the old one's bindings, although the table's documentation
  calls its entries never rewritten, and rebinds the hostname asked for (`CreateIsRefusedExactly`,
  `CreatingAgainCanSplit`). A forced claim at the coordinator is refused by exactly the members that had pinned the
  name (`ForceIsRefusedExactly`, `ForcingCanSplit`). And a member adopts the name it wanted after any failed claim,
  which is a refusal or a lost reply as much as a coordinator that cannot be reached; that keeps the agreement exactly
  when the name is already its own (`AdoptingUngrantedExactly`, `AdoptionIsRefusedExactly`, `AdoptingCanSplit`).
- Applying a roster a second time, at once or after any other pushes, gives not only the same members and bindings but
  the very same conflicts (`ReplayIsIdempotent`).
- Agreement also needs that no two keys share the eight hex digits of a fallback. A member adopts a granted name through
  its own de-duplication, and gets a different name exactly when another member's fallback is that name
  (`AdoptsExactly`, `AdoptingCanDrift`); and a fallback two keys share resolves to either (`OneKeyPerNameExactly`).
- A pushed roster may show names the coordinator would never grant. A name then means two members exactly when one of
  them shows the other's fallback or id (`AmbiguousExactly`, `PushedNameIsAmbiguous`), and the first listed is taken.
- A network label cut at 63 characters can end in a hyphen, and then is not a legal label (`NetworkLabelExactly`,
  `SomeLabelEndsInHyphen`).
- A numbered file name goes over 255 bytes exactly when the number and the extension alone do, and is the name itself
  exactly when the name is at the limit and its stem already ends in that number (`NumberedCanOvershoot`,
  `SomeNameIsItsOwnNumbered`).
- Re-encoding a decoded frame gives its bytes back except for an error frame that was not UTF-8. Such a frame's message,
  lengthened by replacement characters, can be too long to send on, and is exactly when the payload and what the
  replacing adds are together over the limit (`ErrorFitsExactly`, `SomeErrorCannotBeSentOn`).
- At most one registration starts after shutdown asks for a stop, and only if the stop came after the last check. Once
  shutdown has let go, the rule can come back exactly when a command, cut off or not, has yet to land or the retry is
  past its last check (`NeverAgainExactly`), and there is a run in which it does (`CutOffRuleCanOutliveUs`).
- Removing the sender from the roster cuts an accepted transfer off exactly when the transfer is registered by then and
  no other has since registered, or been let go, under its id (`RemovalReachesExactly`). A roster that comes between
  taking the offer and registering it comes too soon (`GapLetsItEscape`); and since an id is not drawn against the
  transfers that are arriving, one given out again in the meantime can take its place in the table
  (`ReissueLetsItEscape`).
- The task that tells a sender its offer is queued acts on whatever has the id by then. If a roster has dropped its
  offer and the id is another's, it takes that one off the list or makes it answerable (`EndingsExactly`,
  `ReissueLosesAnOffer`, `ReissueQueuesAnother`).

Assumptions about the surroundings: random tokens are never drawn twice, and the clock does not go back (invites,
offers); each connection has its own stable id; the partial file's name is nobody else's; in the network model the ids
in play are real endpoint ids with distinct fallbacks; what is read at a restart is what was saved. That an offer id is
not drawn again while a task still queueing an offer under it, or a transfer accepted under it, holds it is assumed
only where a theorem says so.

## Model

| member | source | states |
|---|---|---|
| Quoting.Quote | cli/src/elevate.rs:199-231 | the quoting loop writes exactly the escaped form, for any mix of quotes and backslash runs |
| Quoting.JoinArgs | cli/src/elevate.rs:192-197 | every argument quoted, one space between |
| Quoting.Split | cli/src/elevate.rs:239-280 | the splitter's loops are a one-character-at-a-time automaton |
| Quoting.RoundTrip | cli/src/elevate.rs:282-285 | splitting a joined command line gives exactly the arguments, for every list of strings |
| Quoting.JoinedInjective | cli/src/elevate.rs:192-231 | two different argument lists never share a command line |
| Quoting.JoinThenSplit | cli/src/elevate.rs:192-280 | the two loops run one after the other give the arguments back |
| Frames.Write | proto/src/frame.rs:68-89 | a frame is written whole if it is within the limit, and otherwise nothing is |
| Frames.Read | proto/src/frame.rs:94-119 | reading takes one frame off the stream and leaves the rest; it fails as decoding fails, and each failure leaves exactly what was not yet read |
| Frames.DecodeEncoded | proto/src/frame.rs:68-119 | a written frame is read back whatever follows, and only its bytes are consumed |
| Frames.DecodeTruncated | proto/src/frame.rs:94-119 | any strict prefix of a frame is the end of the stream, never a shorter frame |
| Frames.EncodeDecoded | proto/src/frame.rs:94-119 | a decoded frame is within the limit, and re-encoding it gives its bytes back exactly unless it is an error that was not UTF-8 |
| Frames.DecodeCut | proto/src/frame.rs:94-119 | a stream cut after any byte yields exactly the frames that arrived whole, then its end |
| Frames.RoundTrip | proto/src/frame.rs:68-119 | decoding the concatenated encodings of any frames gives those frames and then the end |
| Frames.DecodedWithinLimit | proto/src/frame.rs:94-119 | from any bytes, every frame read other than an error could have been written |
| Frames.ErrorFitsExactly | proto/src/frame.rs:94-119 | an error frame that was read can be sent on iff its payload, with what replacing its ill-formed runs adds, is within the limit |
| Frames.SomeErrorCannotBeSentOn | proto/src/frame.rs:94-119 | such a frame: one that is read and cannot be written |
| ReadAhead.StepKeepsInv | proto/src/frame.rs:139-161 | no step of the decoding task or its consumer loses, repeats or reorders a frame |
| ReadAhead.AnyInterleaving | proto/src/frame.rs:124-161 | under any interleaving, with abandoned waits, results are a prefix of what the stream decodes to and then failures, with at most five frames held |
| ReadAhead.LinkDelivers | proto/src/frame.rs:68-161 | over a link cut anywhere, a consumer sees exactly the frames that arrived whole and then failures |
| Names.ValidateExactly | daemon/src/names.rs:42-72 | a request is granted iff, trimmed and lower-cased, it is a legal label that is nobody else's fallback, and that is what is granted |
| Names.ValidateLegal | daemon/src/names.rs:42-72 | a granted name is granted again unchanged |
| Names.SuffixedLabel | daemon/src/names.rs:146-157 | a suffixed label is a legal label of at most 63 characters, ends in its suffix and is never shaped like a fallback |
| Names.SuffixedDistinct | daemon/src/names.rs:146-157 | different suffixes stay different names even after trimming |
| Names.CandidatesDistinct | daemon/src/names.rs:133-138 | different numbers give different candidates |
| Names.DedupeIsLegal | daemon/src/names.rs:128-143 | the result is always a label its claimant may hold, and passes validation unchanged |
| Names.DedupeTakenExactly | daemon/src/names.rs:128-143 | exactly when the result is a taken name |
| Names.DedupePicksLeast | daemon/src/names.rs:133-138 | a taken name gets the lowest free number |
| Names.DedupeBound | daemon/src/names.rs:128-157 | with at most 9,999 names taken the result is free |
| Names.DedupeBoundIsSharp | daemon/src/names.rs:122-157 | 10,000 taken names defeat a label that is one of its own candidates |
| Names.SomeLabelIsItsOwnCandidate | daemon/src/names.rs:146-157 | such a label exists |
| Names.NetworkLabelExactly | daemon/src/names.rs:79-95 | a network name becomes a legal label iff cutting it to 63 characters does not leave a hyphen last |
| Names.SomeLabelEndsInHyphen | daemon/src/names.rs:79-95 | a name whose label is not legal |
| Names.ValidNetworkIsItsLabel | daemon/src/names.rs:98-118 | a name accepted for a new network is a legal label, its own label, and accepted again |
| FileName.AcceptedNameStaysPut | proto/src/filename.rs:49-98 | joined to any directory by whatever the system takes for a separator, an accepted name leads to an entry of that directory under exactly that name |
| FileName.NumberedBytes | proto/src/filename.rs:116-130 | walking the cut back to a character boundary on bytes is taking the most whole characters that fit |
| FileName.NumberedKeepsExtension | proto/src/filename.rs:116-130 | a numbered name has the extension of the name it stands in for |
| FileName.NumberedFitsExactly | proto/src/filename.rs:116-130 | the limit is kept iff the number and the extension alone keep it |
| FileName.NumberedCanOvershoot | proto/src/filename.rs:122-124 | an accepted name that numbering takes over the limit |
| FileName.NumberedIsAcceptable | proto/src/filename.rs:49-130 | a numbered name is accepted on the same platform, device names included, iff the number and the extension fit |
| FileName.NumberedInjective | proto/src/filename.rs:116-130 | different numbers give different names |
| FileName.NumberedIsItselfExactly | proto/src/filename.rs:116-130 | exactly when numbering leaves a name as it was |
| FileName.SomeNameIsItsOwnNumbered | proto/src/filename.rs:116-130 | an accepted name that is its own first alternative |
| Membership.Membership.BindName | daemon/src/membership.rs:291-296 | the name is bound and shown on the member, nothing else changes |
| Membership.Membership.CreateNetwork | daemon/src/membership.rs:198-211 | the whole table after creating: fresh members and invites, old bindings kept |
| Membership.Membership.ClaimHostname | daemon/src/membership.rs:322-344 | the whole table and verdict after a claim, forced or not |
| Membership.Membership.GenerateInvite | daemon/src/membership.rs:220-245 | the token is pending under the current network until its deadline |
| Membership.Membership.RedeemInvite | daemon/src/membership.rs:351-375 | a token presented is spent whatever the verdict, and a live one admits its bearer |
| Membership.Membership.Apply | daemon/src/membership.rs:420-458 | the loop over a roster computes the table and the conflicts entry by entry |
| Membership.Membership.Join | daemon/src/membership.rs:380-398 | everything of the previous network is forgotten, and the roster applied |
| Membership.Membership.ReplaceRoster | daemon/src/membership.rs:407-418 | members are replaced, bindings kept |
| Membership.Membership.Leave | daemon/src/membership.rs:462-469 | nothing of the network is left |
| Membership.Membership.RemoveMember | daemon/src/membership.rs:476-480 | the member goes, its binding stays, and whether it was listed is reported |
| Membership.Membership.KickMember | daemon/src/membership.rs:520-532 | the member a query means is removed, unless it is this node |
| Membership.FindMember | daemon/src/membership.rs:489-514 | the first member the query means, by id, hostname, fallback or address |
| Naming.ApplyRosterKeeps | daemon/src/membership.rs:420-458 | any roster keeps ids distinct and every name shown bound to its holder |
| Naming.ClaimKeeps | daemon/src/membership.rs:322-344 | so does a claim, forced or not, with at most 9,999 names taken; and what it grants is legal |
| Naming.ClaimChangesOnlyTheClaimant | daemon/src/membership.rs:314-344 | an unforced claim changes no other member's name, moves no binding, and a refused one changes nothing |
| Naming.DoKeeps | daemon/src/membership.rs:198-532 | every operation on the table keeps both |
| Naming.RunIsSound | daemon/src/membership.rs:198-532 | over any run from nothing, ids are distinct, every name shown is bound to its holder's key, and no two members share a name |
| Naming.AmbiguousExactly | daemon/src/membership.rs:482-514 | a name means two members iff one shows the other's fallback or id, an address iff both derive it |
| Naming.PushedNameIsAmbiguous | daemon/src/membership.rs:380-458 | a roster that leaves a node with such a name |
| Naming.LegalNamesShowNoKey | daemon/src/membership.rs:482-514 | no name the coordinator grants does |
| Naming.FindMemberFindsIt | daemon/src/membership.rs:489-514 | a query that is not ambiguous finds the one member it means |
| Trust.PushPinsFirstUse | daemon/src/membership.rs:407-458 | after any push no binding has moved or gone, every name pushed is bound, and a new one belongs to the first entry that used it |
| Trust.VerdictIsFinal | daemon/src/membership.rs:420-444 | judging entries one by one is judging them all against the bindings the push ends with |
| Trust.ConflictsExactly | daemon/src/membership.rs:420-444 | each entry disputing a binding yields exactly one conflict, in order, and nothing else is reported |
| Trust.ConsistentPushRefusedExactly | daemon/src/membership.rs:420-444 | a roster that gives no name to two keys is refused, in part, iff one of its names was pinned to another key before it came |
| Trust.PushListsExactly | daemon/src/membership.rs:420-458 | the members are the pushed ids, this node and the coordinator |
| Trust.PushesOnlyAdd | daemon/src/membership.rs:407-458 | over any sequence of rosters no binding changes owner or disappears |
| Trust.ReplayIsIdempotent | daemon/src/membership.rs:407-458 | a roster pushed again, whatever came between, gives the same members, bindings and conflicts |
| Trust.RunOnlyAdds | daemon/src/membership.rs:314-344 | within one network and without force no operation moves or frees a name |
| HexTokens.Serialize | daemon/src/membership.rs:114-128 | the entries written are the table's, sorted by token |
| HexTokens.SavedOnce | daemon/src/membership.rs:125-127 | saving twice gives the same file, whatever order the table is read in |
| HexTokens.Deserialize | daemon/src/membership.rs:130-150 | bare tokens are dropped, and the first bad token fails the load |
| HexTokens.UnhexHex | daemon/src/membership.rs:114-150 | hexadecimal tokens are read back |
| HexTokens.SaveThenLoad | daemon/src/membership.rs:114-150 | what was saved is read back, bare tokens of older files beside it or not |
| Invites.OneBearerEach | daemon/src/membership.rs:22-375 | over any run with restarts and pruning, every admission is by a token minted here, in time, into its own network, and no token admits two |
| Invites.AdmitsExactly | daemon/src/membership.rs:22-398 | at any point of any run, a presentation admits iff it is the first since minting, in time, minted for a network, and with no create, join or leave since; and the token is spent |
| Dns.HostInZoneExactly | daemon/src/dns.rs:324-336 | exactly two shapes of name are answered, in any case and with any trailing dots |
| Dns.ListResolvable | daemon/src/dns.rs:343-354 | the loop lists the entries member by member, from one look at the roster for the members and another for their hostnames |
| Dns.ResolvableExactly | daemon/src/dns.rs:343-354 | what is listed is exactly each member under its fallback and its hostname |
| Dns.Answer | daemon/src/dns.rs:264-316 | every question is echoed, each known name of an address type gets its record, and the name is denied iff no question named anyone |
| Dns.AnswersExactly | daemon/src/dns.rs:276-309 | a record is in the reply iff it answers one of its questions |
| Network.AdmitVouches | daemon/src/state.rs:166-195 | a join with its claim forgets no binding and vouches for every member |
| Network.AdoptsWhatWasGranted | daemon/src/state.rs:214-219 | with distinct fallbacks a member adopts exactly the name it was granted |
| Network.AdoptsExactly | daemon/src/state.rs:214-219 | adopting yields the granted name iff no other member's fallback is that name |
| Network.AdoptingCanDrift | daemon/src/state.rs:214-219 | two endpoint ids with one fallback, and a member that adopts a name it was not granted |
| Network.RosterIsWelcome | daemon/src/admin.rs:232-252 | any roster ever sent, heard at any time, is taken without a conflict |
| Network.AgreementSurvivesExactly | daemon/src/admin.rs:105-290 | agreement survives a step of the coordinator, of a member or of the network between iff the step moves no name anyone has been told of |
| Network.EstablishExactly | daemon/src/state.rs:144-151 | creating a network, again or for the first time, keeps the agreement iff nobody holds, or may yet hear, the new hostname as another key's |
| Network.ResignExactly | daemon/src/state.rs:278-290 | the coordinator leaving its own network keeps the agreement iff no name has been said to anyone |
| Network.JoinElsewhereExactly | daemon/src/ipc.rs:292-304 | its joining somebody else's keeps it iff the roster it joins binds all that has been said as it was said |
| Network.RenameSelfExactly | daemon/src/ipc.rs:363-379 | so does the coordinator's claim for itself: always unforced, and forced iff nobody has been told the name is another key's |
| Network.AdoptingUngrantedExactly | daemon/src/ipc.rs:388-396 | adopting a name nobody granted keeps the agreement iff the coordinator has that name bound to the adopter already |
| Agreement.NothingIsRefused | daemon/src/membership.rs:407-458 | over any run of such steps from before there is a network, with loss, repetition, reordering and re-creation, members' bindings are a sub-map of the coordinator's and no push is refused |
| Agreement.OneKeyPerNameExactly | daemon/src/dns.rs:343-354 | names mean one key each iff no two keys share a fallback |
| Agreement.NamesAgreeEverywhere | daemon/src/dns.rs:264-354 | over any such run no two nodes resolve a name to different keys |
| Resolution.NamesAgreeThroughout | daemon/src/dns.rs:246-354 | nor do two answers given at different times, each pieced together from looks at the roster with anything in between, unless the coordinator has unbound a name meanwhile |
| Resolution.NamesKept | daemon/src/membership.rs:291-344 | it unbinds none without leaving, creating or joining a network or forcing a claim |
| Agreement.CurrentRosterCatchesUp | daemon/src/admin.rs:264-290 | one current roster brings a member to exactly the coordinator's member list, and adds exactly the names shown to its bindings, as the coordinator has them |
| Agreement.ForceIsRefusedExactly | daemon/src/membership.rs:318-336 | after a forced claim at the coordinator a member refuses its roster iff it had pinned the name to another key, and goes on resolving it to that key |
| Agreement.CreateIsRefusedExactly | daemon/src/membership.rs:198-211 | after creating a network again an old member refuses its roster iff it had pinned the new hostname to another key |
| Agreement.CreatingAgainCanSplit | daemon/src/ipc.rs:337-353 | a run from nothing at the end of which the coordinator and a member take one name for different keys, and the member refuses its roster |
| Agreement.ForcingCanSplit | daemon/src/ipc.rs:363-379 | another, by a forced claim |
| Agreement.AdoptingCanSplit | daemon/src/ipc.rs:388-396 | another, by a member adopting what it was not granted |
| Agreement.ResigningForgets | daemon/src/state.rs:278-290 | a run at the end of which the coordinator has forgotten a name that a member goes on resolving |
| Agreement.JoiningElsewhereForgets | daemon/src/ipc.rs:292-304 | the same by joining somebody else's network |
| Agreement.AdoptionIsRefusedExactly | daemon/src/ipc.rs:388-396 | a member that adopted an ungranted name refuses a current roster iff the roster shows that name on somebody else |
| Registration.DelayExactly | daemon/src/registration.rs:264-271 | the wait before retry n is min(2^n, 60) seconds for every n, past the saturation of the 32-bit counter |
| Registration.RetryUntilStopped | daemon/src/registration.rs:284-320 | the loop's waits, what it asks to be registered, and exactly how it ends |
| Shutdown.ApplyKeeps | daemon/src/registration.rs:72-364 | every poll of the retry, command of the system and move of shutdown keeps the invariant |
| Shutdown.RegistrationsAreFounded | daemon/src/registration.rs:180-320 | every registration follows a successful probe of its own and the mark that shutdown undoes, and the waits are right |
| Shutdown.AtMostOneLateStart | daemon/src/registration.rs:273-347 | at most one registration starts after the stop, and only if the stop came after the last check |
| Shutdown.StoppedInTimeLeavesNothing | daemon/src/registration.rs:156-173 | if the retry ends within the limit nothing runs, starts or lands after the removal, and no rule is left unless removing it failed |
| Shutdown.NeverAgainExactly | daemon/src/registration.rs:156-364 | after a release, in time or past the limit, no continuation brings the rule back iff every command begun, cut off or not, has landed or failed and the retry is not past its last check |
| Shutdown.CutOffRuleCanOutliveUs | daemon/src/registration.rs:349-364 | a run from startup at the end of which shutdown has let go and the rule is there |
| Registry.ClampTtl | daemon/src/files/mod.rs:41-43 | of the windows between a second and a day, the one nearest to what was asked |
| Registry.Registry.ReplaceRoster | daemon/src/files/mod.rs:138-174 | which offers and transfers go, and which connections are closed |
| Registry.Registry.NewId | daemon/src/files/mod.rs:238-250 | the first draw that is in none of the three tables |
| Registry.Registry.AdmitOffer | daemon/src/files/mod.rs:256-293 | the place taken, or why there is none |
| Registry.Registry.QueueOffer | daemon/src/files/transfer.rs:147-154 | an offer becomes answerable, if it is still there |
| Registry.Registry.BuryIncoming | daemon/src/files/transfer.rs:183-193 | only the offer of this connection is buried, with the reason |
| Registry.Registry.TakeAnswerable | daemon/src/files/transfer.rs:196-216 | an answerable offer is taken off, and otherwise the right reason is given |
| Registry.Registry.MoveTo | daemon/src/files/mod.rs:307-319 | the whole entry after a change of state |
| Bookkeeping.LockKeeps | daemon/src/files/mod.rs:138-319 | every step under the lock keeps the three invariants |
| Bookkeeping.RunIsInOrder | daemon/src/files/mod.rs:138-319 | in every reachable state at most 20 offers wait from any peer, all from current members, and the three id sets are disjoint |
| Bookkeeping.AdmitsExactly | daemon/src/files/mod.rs:256-293 | an offer is let in iff its peer is a member with room, and takes one place of that peer's |
| Arrivals.RosterReachesOffers | daemon/src/files/mod.rs:138-174 | over any run a roster closes the connection of an offer on the list iff it takes the offer off, which is iff it leaves the peer out |
| Arrivals.RemovalReachesExactly | daemon/src/files/transfer.rs:605-614 | over any run at all, a registered transfer's connection has been closed iff a roster left its peer out before any other transfer registered, or was let go, under its id |
| Arrivals.RemovalReachesArrivals | daemon/src/files/transfer.rs:605-614 | so if no id is given out again too soon, iff a roster has left its peer out since it registered |
| Arrivals.GapLetsItEscape | daemon/src/files/transfer.rs:583-614 | a run in which a roster comes between taking an offer and registering it, and the transfer goes on from a non-member |
| Arrivals.ReissueLetsItEscape | daemon/src/files/mod.rs:238-250 | a run in which an id is given out again while its transfer is arriving, and a roster no longer reaches it |
| Offers.ApplyKeeps | daemon/src/files/transfer.rs:86-216 | every step of the watching, answering and roster tasks keeps the invariant |
| Offers.EndingsExactly | daemon/src/files/transfer.rs:86-216 | over any run at all an admitted offer off the list has been ended once, and one on it not at all, but for one ending more for each offer its task takes from another connection, and one less if its own is taken so |
| Offers.EndedExactlyOnce | daemon/src/files/transfer.rs:86-216 | exactly once, then, if no id is given out while a task has still to queue an offer under it |
| Offers.ReissueLosesAnOffer | daemon/src/files/transfer.rs:133-150 | a run in which an id is given out so, and the second offer goes off the list unended |
| Offers.ReissueQueuesAnother | daemon/src/files/transfer.rs:146-154 | a run in which it can be answered before its own sender has been told |
| Offers.AnswerEndsIt | daemon/src/files/transfer.rs:196-216 | an answer succeeds only on a queued, unexpired, unended offer, and ends it |
| Offers.LateAnswerHearsWhy | daemon/src/files/transfer.rs:183-210 | within the hour, a late answer to a withdrawn or lapsed offer gets the recorded reason |
| Sending.ApplyKeeps | daemon/src/files/transfer.rs:251-493 | every step of a send, of its guard and of the roster keeps the invariant |
| Sending.EveryOfferLivesOnce | daemon/src/files/transfer.rs:310-760 | an offer's states are offered, perhaps transferring, then one terminal state; done only after transferring; and a live entry is still listed |
| Sending.EntriesAreConsistent | daemon/src/files/mod.rs:297-319 | a finishing time iff finished, a deadline iff offered |
| Sending.RemovalReachesSends | daemon/src/files/transfer.rs:308-321 | once a send has looked at the roster again, a connection its entry holds to anyone outside the roster is closed |
| Receive.Directory.RenameNoReplace | cli/src/commands/file/receive.rs:253-266 | a rename that never replaces |
| Receive.PartFile.Finish | cli/src/commands/file/receive.rs:246-272 | the file goes to the first candidate that is free when it is tried, whatever others do in the directory meanwhile; or it is dropped: when it cannot be flushed, when all 10,000 are taken, or when the first free one is refused for another reason |
| Receive.PlacedHarmsNobody | cli/src/commands/file/receive.rs:253-266 | all that others had in the directory when the file was placed is there still |
| Receive.TakeBody | cli/src/commands/file/receive.rs:130-175 | what is written is a prefix of the data and never more than was offered; all of it iff it fits and the disk takes it |
| Receive.Keep | cli/src/commands/file/receive.rs:176-198 | kept iff the size and the hash are right and the file can be put in place |
| Receive.ReceiveFile | cli/src/commands/file/receive.rs:130-206 | for every frame sequence and disk, a file is placed iff the frames are whole, every write is taken and a candidate can be had; it is the data, nobody else's file is touched, and never more than offered is written |
| Receive.PayloadsGrow | cli/src/commands/file/receive.rs:145-159 | data received so far is a prefix of all of it |
| Send.Stream | cli/src/commands/file/send.rs:196-250 | streaming succeeds iff the file is readable, unchanged in length, and every frame gets through, which is iff what was sent is whole for a receiver; and it is then exactly the file |
| Send.TrailerMakesWhole | cli/src/commands/file/send.rs:241-249 | data, its hash and an end are what a receiver keeps |
| Send.ErrorSpoils | cli/src/commands/file/send.rs:206-221 | after an error no receiver keeps anything, whatever follows |
| Relay.RelayBody | daemon/src/files/transfer.rs:400-449 | a relay passes on a prefix, the end iff the size is right and neither a failed write nor the far side disturbs it, and never more than was offered |
| Relay.RelayIsTransparent | daemon/src/files/transfer.rs:632-692 | a receiver keeps what was relayed iff it would have kept what was sent, and it is the same file |
| Relay.Deliver | daemon/src/files/transfer.rs:400-692 | from file to receiving CLI through both relays: whole on arrival iff the file was unchanged and every frame got through all three links |
| Loops.ReceiverStepsAreItsLoop | cli/src/commands/file/receive.rs:130-206 | the receiver's steps, run to a standstill, end with a verified file iff the frames are whole, and it is the file the loop would place |
| Loops.SenderStepsAreTheRelay | daemon/src/files/transfer.rs:400-449 | the sending daemon's steps, run to a standstill, pass on what the relay loop passes on and reach the end iff it does |
| Loops.ReceiverDaemonStepsAreTheRelay | daemon/src/files/transfer.rs:632-692 | so do the receiving daemon's, which beyond that says at most that it gave up |
| Delivery.ApplyKeeps | daemon/src/files/transfer.rs:251-714 | every step of any of the four parties keeps the invariant |
| Delivery.EachHopIsAPrefix | daemon/src/files/transfer.rs:400-692 | each hop has passed on a prefix of the hop before, with matching counters |
| Delivery.DeliveredMeansPlaced | daemon/src/files/transfer.rs:400-712 | in every reachable state, a done or delivered offer means the receiving CLI has placed exactly the bytes streamed, of the offered size |
| Delivery.PlacedMeansWhole | cli/src/commands/file/receive.rs:176-197 | whatever has been placed is exactly what was streamed, even if the sender never hears |
| Delivery.EndIsNeverRefused | cli/src/commands/file/receive.rs:176-183 | a receiver that gets as far as the end never refuses the contents |
| Delivery.NothingBeforeConsent | cli/src/commands/file/send.rs:147-174 | if anything of the file has left the sender, the receiving daemon has passed on a yes, and it did so while its CLI had answered |

## Left out

- Connections, sockets, TUN devices, named pipes, discovery, `resolvectl` and PowerShell: only their success, failure and closing are steps.
- The link table and the mesh (daemon/src/peers.rs, daemon/src/mesh.rs), routes, address derivation, authorisation and command-line tables: nothing there holds across functions that is hard to see.
- BLAKE3, base58, JSON and DNS packet bytes: the digest is any function, a token is 16 bytes, control messages and questions are records. An address typed by a user is given as the set of keys it is derived from.
- Wording of errors, logs, progress and prompts: the kind of outcome is modelled, not its text.
- Byte counters are unbounded; the program's 64-bit ones would need 2^64 bytes to wrap.
- Dropping the watch sender and an aborted poll are steps, but wall-clock time is not: a time limit may run out at any point.
- Saving to disk happens together with the operation it follows; a crash between the two is not modelled.
- Network.AgreementSurvivesExactly: does not cover a coordinator that joins another network between checking that it is a coordinator and acting as one.
- Arrivals.RemovalReachesArrivals: assumes no id is given out again while a transfer under it is not over; `RemovalReachesExactly` does not.
- Offers.AnswerEndsIt: assumes no id is given out while a task has still to queue an offer under it; `ReissueQueuesAnother` shows what happens otherwise.
- Sending.EveryOfferLivesOnce: is about offers that were delivered; one whose sending is cut off before that stays listed as offered until the daemon stops.
- Registration.RetryUntilStopped: takes what each round meets as its input, where the program awaits it.
