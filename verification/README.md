# Verification of the feed's protocols, parsers and reconcilers

This project models the parts of this OpenWrt feed that carry state, cross process boundaries or transform text, and
proves what they promise for every input, every run and every interleaving. `dafny verify dfyconfig.toml` checks it.

- **VM backup and recovery** (`DiskModel`, `GuestAgent`, `Backup`, `Job`). A transition system for one disk: base
  image, overlay, active layer, commit job, LVM snapshot and, as history, the guest's own writes. `Backup.Host` is a
  host on which anything may happen between two steps (guest writes, stops, respawns, job progress and failure), on
  which every reply may be lost, and whose guest agent carries out requests and answers them whenever it gets to it;
  the programs run against it. Their histories are runs of the transition system, so the safety theorem applies to
  every sequence of backups, recoveries and starts, each killed at any step. A host may also follow a script on which
  everything works but for at most one reply: there the programs' steps are known exactly, from the freeze to the
  unlinked overlay. `Job` adds the notifications and the exit code. Programs of one instance are taken not to overlap;
  the code has no lock for it.
- **BIRD** (`BirdLines`, `BirdConfig`, `Bits`, `BirdRoute`, `BirdMatch`, `BirdReply`, `BirdTransaction`). The OSPF cost
  editor with its exact commutation condition; address and prefix texts with an exact grammar; longest-prefix match by
  bytes and masks as division of numbers; the reply protocol under arbitrary truncation; and the transaction that
  checks, promotes and applies a derived configuration.
- **vpn-sticky** (`StickyMarks`, `StickyRoutes`, `StickyLaws`). The emitted nft rules as a packet program on 32-bit
  marks composed with policy-rule lookup; and the reconciler of rules and routes over its state file, with every
  object that was missing at any moment of a reload on record.
- **pbs-helper** (`Report`, `ShellQuote`). The head and tail report buffer, and the command line through a POSIX shell.
- **QMP and guest agent** (`Qmp`). Messages from a byte stream split anywhere, replies matched to requests, resync. The
  queue of replies owed that `Qmp.Request` keeps is the one `GuestAgent` builds on.
- **uwsd template wrapper** (`TemplateCache`, `UrlCoding`). A cache that must agree with a directory tree changing under
  the watcher's feet, with a bounded event queue; URL coding and forms.
- **Unit names and the AS graph** (`UnitEscape`, `AsGraph`).

Code that works step by step is a method with loops, proved against functions and predicates; lemmas prove what those
mean. Nondeterminism (`*`) stands for replies, timing, failures and other programs.

## What is not as promised

- `DiskModel.StaleOverlayLosesWrite`, `RespawnLosesWrite` and `AbortedJobLosesWrite` are the three runs the safety
  theorem has to exclude: a stop while a merged overlay is still there, procd's respawn without recovery, and a commit
  job that dies after accepting block-job-complete. The first is not confined to the moment between pivot and unlink:
  after a failed unlink or a lost reply to block-job-complete the overlay stays while the guest runs on the
  base, a running recovery refuses to touch it, and from then on every ordinary stop of the guest is a losing step:
  the recovery of the next start merges the old blocks over what was written since.
- The image of an overlay backup changes exactly when a guest respawned on its base writes something new to it before
  the read ends, and that of an LVM backup is gone exactly when the guest has written more distinct blocks than fit in
  the snapshot LV, 10% of the disk by default (`DiskModel.ImageIsPointInTimeIff`, `RespawnChangesImage`,
  `OverfullLvIsInvalid`).
- A freeze whose reply is lost leaves the guest frozen with exit code 0, because the thaw follows only a confirmed
  freeze (`Backup.FreezeLeftIff`, `LostFreezeExitsZero`).
- A reply of the guest agent that comes after its timeout is taken for the next request's. After a late status query or
  a late stale thaw, a freeze counts as confirmed that has not happened yet, and a thaw that has not: the snapshot may
  be of a guest that is not frozen, and the guest may be left frozen with exit code 0 and no note
  (`Backup.FreezeGuest`, `FreezeLeftIff`, `LateStatusExitsZero`, `LateStatusSnapshotsUnfrozen`).
- A backup of a stopped instance, or one that is to take no snapshot, does not look for a leftover overlay and reads a
  stale base with exit code 0 (`Backup.DirectReadIff`, `StaleBackupExitsZero`).
- A snapshot whose reply is lost leaves the guest on the overlay with exit code 0 (`Backup.OverlayLeftIff`,
  `LostSnapshotExitsZero`); the next backup or start merges it.
- `exactRoute` says it compares normalized bits, the code compares raw bytes (`BirdMatch.ExactIgnoresHostBitsIff`).
- A BIRD reply that loses part of its status code reads as code 0, so a rejected text is promoted
  (`BirdReply.CutReadsAsSuccessIff`, `BirdTransaction.RejectedIsPromotedIff`); testing the reply for completeness
  would tell (`BirdReply.CompleteSuccessIff`).
- vpn-sticky compares state lines as text and kernel objects by network (`StickyLaws.RewordedRouteIsLost`).
- vpn-sticky compares a rule with the text `ip` prints. A right rule that is printed in other words, for example with a
  mask of all ones, is deleted and added again on every reload (`StickyLaws.Reload`).
- The nft template falls back to the section id for a tunnel's name, the init script does not: such a tunnel gets
  nft rules but no policy rule (`StickyLaws.AllInstalledIff`, `UnnamedTunnelIsUnserved`).
- The template watcher misses edits of files that are not `.ut` or `.uc` files below the document root: modules
  imported from elsewhere, and files of a sibling directory whose name starts with the root's
  (`TemplateCache.Wrapper.Request`, `EditThenRequest`, `ImportedEditIsMissed`, `SiblingEditIsMissed`). It also misses
  edits in directories the kernel refused to watch, or below a root that was missing when watches were added
  (`UnwatchedEditIsMissed`), until an event drops the cache and the watches are added again.

## Model

| member | source | states |
|---|---|---|
| DiskModel.StepKeepsDisk | qemu-instance-init/files/backup.uc:272-311 | Whatever single thing happens to the disk (guest write, stop, respawn, start, freeze, snapshot, commit-job step, offline commit, unlink), the guest still sees exactly its own writes afterwards if and only if the step is not one of four named losing cases |
| DiskModel.RunKeepsDisk | qemu-instance-init/files/backup.uc:272-311 | Over every run, cut short at any step, the guest's disk is its write history at every moment if and only if the run contains no losing step |
| DiskModel.BackupsNeverLoseWrites | qemu-instance-init/files/backup.uc:425-462 | Safety: in every run in which overlays are unlinked only after a commit and starts happen only without an overlay, and in which the environment avoids three stated hazards, no guest write is ever lost and an overlay is unlinked only when it is merged and no longer active |
| DiskModel.MergedMeansDrained | qemu-instance-init/files/backup.uc:141-150 | An overlay counted as merged really was drained into the base at an earlier moment and has not changed since |
| DiskModel.ImageIsPointInTimeIff | qemu-instance-init/files/backup.uc:389-425 | While no command follows a snapshot of the guest's disk, the image handed to the backup stays that disk, whatever the guest writes, if and only if nothing spoils it: for an overlay, a changing write by a guest that runs on the base; for a snapshot LV, more distinct blocks written than it can save |
| DiskModel.ShelteredImageIsPointInTime | qemu-instance-init/files/backup.uc:1-28 | From end to end: in a disciplined run from a clean state in a sheltering environment the image of an overlay backup stays the guest's disk at the instant of the snapshot |
| DiskModel.ShelteredLvIsPointInTimeIff | qemu-instance-init/files/backup.uc:235-244 | So does the image of an LVM backup, of a disk without an overlay, if and only if the distinct blocks written since fit in the snapshot LV |
| DiskModel.OverfullLvIsInvalid | qemu-instance-init/files/backup.uc:391 | Counterexample: a running guest rewrites more blocks than the snapshot LV can save, and no image is left |
| DiskModel.StaleOverlayLosesWrite | qemu-instance-init/files/backup.uc:278-281 | Counterexample: a stop between the pivot and the unlink makes the next recovery merge the stale overlay over newer base writes |
| DiskModel.RespawnLosesWrite | qemu-instance-init/files/qemu.init:143 | Counterexample: QEMU dying on its overlay and being respawned by procd boots the base without recovery and loses a write |
| DiskModel.AbortedJobLosesWrite | qemu-instance-init/files/backup.uc:141-150 | Counterexample: a commit job that dies after it accepted block-job-complete is taken for finished, and the overlay the guest still writes to is unlinked |
| DiskModel.RespawnChangesImage | qemu-instance-init/files/backup.uc:425 | Counterexample: a respawned guest changes the base while the backup reads it, a spoiling step |
| Backup.Host.Interfere | qemu-instance-init/files/backup.uc:336-473 | Between any two steps anything may happen outside: the history only grows by outside events, and the overlay file, the QEMU generation and the merged and aborted flags are never taken back |
| GuestAgent.RanKnown | qemu-instance-init/files/backup.uc:45-88 | Whenever the agent gets to a request, early or late: afterwards the guest is still frozen by the program's freeze exactly while no thaw took effect after it and the QEMU process lives, and no other freeze has happened |
| GuestAgent.FreezeAnswer | qemu-instance-init/files/qmp.uc:70-95 | The reply taken for a freeze is its own if and only if no reply to an earlier request was owed |
| Backup.FreezeGuest | qemu-instance-init/files/backup.uc:45-61 | The reply taken for the freeze's is its own if and only if the status query and, if it was sent, the stale thaw were answered in time; the thaw is sent exactly for a guest that is said to be frozen; frozen then means that a freeze took effect, and not frozen is said in exactly one note; with an agent that answers, a stale freeze is thawed and the guest is frozen afterwards |
| Backup.ThawGuest | qemu-instance-init/files/backup.uc:71-88 | Between one and five thaws, one second apart, and failure only after five; if the freeze's own reply had been taken, a confirmed thaw took effect; an agent that answers thaws at the first try; nothing but ambient events happens meanwhile |
| Backup.AwaitReady | qemu-instance-init/files/backup.uc:121-135 | The last answer decides: ready, or that the job cannot be seen, is gone, or is not ready after exactly the configured number of seconds; success and each of these errors hold of the job itself; a job that gets on is ready at the first look |
| Backup.AwaitPivot | qemu-instance-init/files/backup.uc:141-150 | The last answer decides; when the job is gone, the overlay has been merged or the job died after it was told to complete, and giving up takes 601 seconds with the job still there |
| Backup.Commit | qemu-instance-init/files/backup.uc:116-153 | Success means that every block of the overlay is in the base, or that the job died unnoticed after block-job-complete; where commands work it succeeds if and only if the guest runs on the overlay and no job is there, with the blocks merged and the guest on the base; time is bounded by the configured timeout |
| Backup.RemoveSnapshotLv | qemu-instance-init/files/backup.uc:208-225 | On success no snapshot LV is left; failure takes three tries over four seconds on an LV that was there; where commands work it succeeds at once |
| Backup.Recover | qemu-instance-init/files/backup.uc:272-311 | On success no overlay is left, and one that was there was merged (or its job died unnoticed) before it was removed; a guest is said to run elsewhere only if it does not run on the overlay; a commit is sent exactly when the guest was seen on it; where commands work the recovery fails if and only if the instance is not in the state the plan says, the guest runs on its base, or a job is there, with that error, and otherwise leaves the merged disk; the QMP client is closed on every path |
| Backup.PrepareSnapshot | qemu-instance-init/files/backup.uc:346-372 | Either a snapshot can be attempted, with no overlay file and no stale LV in the way, or exactly one note says which step prevented it; a leftover overlay is recovered first, where that works |
| Backup.OpenAndFreeze | qemu-instance-init/files/backup.uc:374-387 | A requested freeze that is not confirmed is noted, and only that; the connection starts with everything asked earlier carried out and answered, so the freeze's reply is its own if the requests before it were answered in time |
| Backup.TakeSnapshot | qemu-instance-init/files/backup.uc:389-414 | A confirmed snapshot is a snapshot step of the run, an overlay under a guest that runs on its base, or an LV of the configured size; what is known of the freeze holds at that step |
| Backup.ThawAndClose | qemu-instance-init/files/backup.uc:416-420 | A confirmed freeze gets up to five thaws, both clients are closed, and nothing but ambient events happens; a confirmed thaw took effect if the freeze's reply was its own |
| Backup.SnapshotPhase | qemu-instance-init/files/backup.uc:346-420 | All of the above together: no client stays open, since the snapshot only ambient events have happened, and it was taken of a frozen guest if a freeze was confirmed and nothing before it was answered late |
| Backup.ReadImage | qemu-instance-init/files/backup.uc:425 | The client reads with every connection closed and after all thaws, from the snapshot LV exactly when there is one, with the snapshot it reads located in the history |
| Backup.CommitAfterBackup | qemu-instance-init/files/backup.uc:432-464 | After a confirmed overlay a commit is attempted, or ten connections fail over 27 seconds; no error means merged, an error is noted as a failed commit; where commands work the guest is back on the merged base and the overlay gone |
| Backup.CleanUp | qemu-instance-init/files/backup.uc:427-462 | Exactly the failed commits are reported; without notes the snapshot LV or the overlay file is gone |
| Backup.Finish | qemu-instance-init/files/backup.uc:450-472 | The notes grow by what clean-up reports; where commands work nothing is added and the snapshot is cleared away by exactly its steps |
| Backup.ConsistentBackup | qemu-instance-init/files/backup.uc:336-473 | For every behaviour of QEMU, agent, LVM and guest: the client always runs and with no connection open; the exit code is the client's, else 3 if a failed commit is noted, else 4 if a confirmed freeze was not confirmed as thawed, else 0; a commit is attempted exactly for a confirmed overlay and is done or reported; a confirmed freeze is followed by thaws before the client reads; freeze and thaw took effect if the agent had answered in time; the snapshot read is located in the history; all clients are closed and the time slept is bounded. Where everything works, the history grows by exactly these steps: thaw a stale freeze, freeze, snapshot, thaw, commit, pivot and unlink or remove the LV, with code 0, no note and no waiting |
| Backup.FreezeLeftIff | qemu-instance-init/files/backup.uc:19-22 | Afterwards a freeze of this backup is in force if and only if it took effect, no thaw did after it and the QEMU process lives; unconfirmed it gets no thaw, and confirmed and thawed it is in force only if a request before it was answered late |
| Backup.OverlayLeftIff | qemu-instance-init/files/backup.uc:19-22 | An overlay made by this backup is left without any attempt to commit it if and only if its reply was lost |
| Backup.LostFreezeExitsZero | qemu-instance-init/files/backup.uc:45-61 | Counterexample: with a lost freeze reply the backup ends with code 0, no thaw tried and the guest frozen |
| Backup.LateStatusExitsZero | qemu-instance-init/files/backup.uc:45-88 | Counterexample: a status query answered after its timeout is taken for the freeze's reply and the freeze's for the thaw's; the backup ends with code 0 and no note, and the guest is frozen |
| Backup.LateStatusSnapshotsUnfrozen | qemu-instance-init/files/backup.uc:45-61 | Counterexample: with the same delay the snapshot is taken of a guest that is not frozen, after a confirmed freeze |
| Backup.LostSnapshotExitsZero | qemu-instance-init/files/backup.uc:401-414 | Counterexample: with a lost snapshot reply the backup ends with code 0 and the guest on an overlay nobody tries to commit |
| Backup.ImageReadIsSnapshotIff | qemu-instance-init/files/backup.uc:389-425 | What the client reads, from beginning to end, is the guest's disk at the instant of the snapshot if and only if nothing spoils it before the end of the read |
| Backup.ShelteredReadIsSnapshot | qemu-instance-init/files/backup.uc:389-425 | From end to end: in a sheltering environment an overlay backup reads the guest's disk at the instant of the snapshot, and an LVM backup if and only if the blocks rewritten until then fit in the snapshot LV |
| Backup.DirectReadIff | qemu-instance-init/files/backup.uc:341-344 | A backup without a snapshot reads the guest's disk if and only if no overlay holds blocks the base does not |
| Backup.StaleBackupExitsZero | qemu-instance-init/files/backup.uc:341-344 | Counterexample: after a killed backup, the next one of the stopped instance, or of the running one without a snapshot, reads the base without what was written since, with code 0 and no note |
| Backup.PointInTimeLasts | qemu-instance-init/files/backup.uc:425 | What was read stays point-in-time whatever the program does afterwards |
| Backup.StartInstance | qemu-instance-init/files/qemu.init:75-80 | An instance starts only when recovery has left no overlay, and where commands work exactly when it is stopped and its overlay can be recovered |
| Backup.Operate | qemu-instance-init/files/backup.uc:272-473 | Any sequence of backups, recoveries and starts, each killed at any step or run to its end, keeps the guest's disk its own write history in a sheltering environment |
| Backup.OperateOnce | qemu-instance-init/files/qemu-backup.uc:164-239 | One more program run, completed or killed anywhere, leaves a history the next one can start from |
| Job.Http.HcPing | pbs-helper/files/helper.uc:290-309 | A configured ping is reported sent exactly when one of at most three requests was answered with a 2xx status; every request carries it |
| Job.Http.GotifySend | pbs-helper/files/helper.uc:321-346 | One request, reported sent exactly when it was answered with a 2xx status |
| Job.Http.Report | pbs-helper/files/helper.uc:400-407 | Both result notifications are always attempted; a successful backup becomes 1 when a configured one was not delivered |
| Job.RunJob | pbs-helper/files/helper.uc:369-408 | The exit code is 0 if and only if the client returned 0, no commit was noted as failed, any confirmed freeze was confirmed as thawed and every configured result notification was delivered; the start is announced before anything else and the backup's own code afterwards; freeze and thaw took effect then if the agent had answered in time; a failed client's own code is returned |
| Text.JoinSplit | rpcd-mod-bird/src/birdconfig.uc:552 | Joining the lines of a text gives the text back |
| Text.SplitJoin | rpcd-mod-bird/src/birdconfig.uc:552 | Splitting joined pieces that do not contain the separator gives the pieces back |
| Text.ValDec | rpcd-mod-bird/src/birdconfig.uc:641 | Every number is read back from its decimal digits |
| Text.TrimCuts | rpcd-mod-bird/src/birdconfig.uc:568 | Trimming cuts white space off both ends and nothing else |
| Text.ValIs | rpcd-mod-bird/src/birdconfig.uc:96-119 | Digits are read from the left, each one more for ten times the value |
| Text.HexDigits | uwsd/files/utpl-wrapper.uc:240-259 | Hexadecimal letters of either case follow the decimal digits |
| BirdLines.CountChar | rpcd-mod-bird/src/birdconfig.uc:23-33 | Counts the occurrences of a character |
| BirdLines.HeaderIff | rpcd-mod-bird/src/birdconfig.uc:557-572 | A line is taken for a header of an interface if and only if it is blanks, the word, white space, the quoted name and anything behind the closing quote |
| BirdLines.HeaderNamesOne | rpcd-mod-bird/src/birdconfig.uc:526-529 | A line is the header of one interface at most |
| BirdLines.BraceDeltaIs | rpcd-mod-bird/src/birdconfig.uc:23-33 | The balance of a line is its opening braces less its closing ones |
| BirdLines.CostIff | rpcd-mod-bird/src/birdconfig.uc:627-629 | A line is taken for a cost statement if and only if it is blanks, the word, blanks, a number, blanks, a semicolon and anything |
| BirdLines.SetCostShape | rpcd-mod-bird/src/birdconfig.uc:641 | Replacing the number of a cost line changes nothing else the editor looks at, and the new number reads back |
| BirdLines.NewCostShape | rpcd-mod-bird/src/birdconfig.uc:646-656 | An inserted line is a cost line with the wanted number and neither opens nor closes a block |
| BirdConfig.FindBlock | rpcd-mod-bird/src/birdconfig.uc:552-633 | Finds the first header of the interface, the first brace from it on, the line where the depth returns to the level before that brace, and the first cost line in between; one distinct error for each of the three that may be missing |
| BirdConfig.ScanBlock | rpcd-mod-bird/src/birdconfig.uc:609-632 | Where a block ends does not depend on the brace balance before it |
| BirdConfig.Rebuild | rpcd-mod-bird/src/birdconfig.uc:635-656 | Exactly one line is replaced, or exactly one inserted after the opening brace |
| BirdConfig.LocateIs | rpcd-mod-bird/src/birdconfig.uc:552-633 | What is found is the first line that names the interface, the first brace from it on and the first line that brings the braces back, and no cost statement stands in front of the one found |
| BirdConfig.LocateFails | rpcd-mod-bird/src/birdconfig.uc:574-590 | Nothing is found only if no line names the interface, no brace follows its first header, or the block stays open to the end; the error says which |
| BirdConfig.EditOspfCost | rpcd-mod-bird/src/birdconfig.uc:539-659 | The loops compute the text-to-text edit that the laws below spell out, with its errors |
| BirdConfig.EditTextIs | rpcd-mod-bird/src/birdconfig.uc:539-659 | On texts, for a cost from 1 to 65535: within the first block of exactly this interface the first cost statement gets the new number and nothing else of its line changes, or without one a line one tab deeper than the brace's is inserted behind it; every other line stays |
| BirdConfig.EditTextFails | rpcd-mod-bird/src/birdconfig.uc:541-550 | A text is refused only for an empty name, a cost that is negative, zero or above 65535, or a block that is not found, and the error says which |
| BirdConfig.EditHitsItsInterface | rpcd-mod-bird/src/birdconfig.uc:526-529 | The header of the block edited names no other interface |
| BirdConfig.EditMovesBlocks | rpcd-mod-bird/src/birdconfig.uc:552-656 | An edit leaves every interface's block where it was, except that an inserted line shifts what lies behind it and may become the first cost line of a surrounding block |
| BirdConfig.LaterEditWins | rpcd-mod-bird/src/birdconfig.uc:539-659 | For all configurations: a later edit of an interface gives what it would have given without the earlier one |
| BirdConfig.EditIsIdempotent | rpcd-mod-bird/src/birdconfig.uc:520-537 | For all configurations: applying the same edit again changes nothing |
| BirdConfig.EditReadsBack | rpcd-mod-bird/src/birdconfig.uc:539-659 | The edited interface reads back the new cost and every interface not in conflict its old one |
| BirdConfig.DisjointBlocksAreFree | rpcd-mod-bird/src/birdconfig.uc:526-529 | Interfaces with disjoint blocks are never in conflict |
| BirdConfig.EditsCommute | rpcd-mod-bird/src/birdconfig.uc:539-659 | Edits of two interfaces that are not in conflict can be applied in either order |
| BirdConfig.EditsCommuteIff | rpcd-mod-bird/src/birdconfig.uc:539-659 | Two edits commute for all costs if and only if neither competes for the other's cost line |
| BirdConfig.EditedLines | rpcd-mod-bird/src/birdconfig.uc:552 | The lines of the edited text are exactly the edited lines |
| BirdConfig.TextLaterEditWins | rpcd-mod-bird/src/birdconfig.uc:539-659 | A later edit overrides an earlier one, on texts, for every cost including the rejected ones |
| BirdConfig.TextEditIsIdempotent | rpcd-mod-bird/src/birdconfig.uc:534-535 | Re-applying the same cost gives the identical text |
| BirdConfig.TextEditsCommute | rpcd-mod-bird/src/birdconfig.uc:539-659 | Edits of interfaces with disjoint blocks commute on texts |
| BirdRoute.Ipv4Bytes | rpcd-mod-bird/src/birdconfig.uc:96-119 | The loop accepts exactly the texts of the grammar below, with their bytes |
| BirdRoute.V4Accepts | rpcd-mod-bird/src/birdconfig.uc:96-119 | Accepted are exactly four dot-separated numbers of one to three digits, none above 255, and they are the bytes |
| BirdRoute.HextetsToBytes | rpcd-mod-bird/src/birdconfig.uc:125-142 | Two bytes a group, or nothing if some text is not one to four hexadecimal digits |
| BirdRoute.Ipv6Bytes | rpcd-mod-bird/src/birdconfig.uc:147-201 | The loops accept exactly the texts of the grammar below, with their bytes |
| BirdRoute.V6Accepts | rpcd-mod-bird/src/birdconfig.uc:147-201 | Accepted are exactly eight groups, or fewer than eight with one double colon standing for the missing zero groups, and for exactly those bytes (section 2.2 of RFC 4291 without embedded IPv4) |
| BirdRoute.AddressRoundTrip | rpcd-mod-bird/src/birdconfig.uc:147-201 | For every address and every spelling of its groups, the eight-group text and every text compressing one run of zero groups parse back to it |
| BirdRoute.ParsePrefix | rpcd-mod-bird/src/birdconfig.uc:214-260 | The steps yield exactly the prefix that the grammar below gives a text |
| BirdRoute.LengthIsRead | rpcd-mod-bird/src/birdconfig.uc:203-260 | A bare address is its own host route, a length narrows it, and one above the family's width is rejected |
| BirdRoute.ParseIs | rpcd-mod-bird/src/birdconfig.uc:203-260 | Read are exactly these texts, and as exactly these prefixes: an IPv4 or IPv6 address alone, of full length, or with a slash and the decimal digits of a length that fits its family |
| BirdRoute.V4RoundTrip | rpcd-mod-bird/src/birdconfig.uc:214-260 | Every IPv4 address and length is read back from its text |
| BirdRoute.V6RoundTrip | rpcd-mod-bird/src/birdconfig.uc:214-260 | Every IPv6 address and length is read back from its eight groups in any spelling and from every text that compresses one run of zero groups |
| BirdRoute.ParseIsWellFormed | rpcd-mod-bird/src/birdconfig.uc:214-260 | A parsed prefix has 4 or 16 bytes and a length within its family's width |
| Bits.MaskCompares | rpcd-mod-bird/src/birdconfig.uc:449-453 | Masking two bytes with eight ones shifted left compares exactly their top bits |
| BirdMatch.AgreeIff | rpcd-mod-bird/src/birdconfig.uc:437-456 | Comparing whole bytes and one masked byte is comparing the two addresses as numbers after dropping the host bits |
| BirdMatch.NetCovers | rpcd-mod-bird/src/birdconfig.uc:437-456 | True exactly when families match, the network is no longer than the query and both agree as numbers above the network's host bits (section 5.1 of RFC 4632) |
| BirdMatch.BytesEq | rpcd-mod-bird/src/birdconfig.uc:418-428 | True exactly for equal byte sequences |
| BirdMatch.ExactRoute | rpcd-mod-bird/src/birdconfig.uc:467-482 | Returns the first entry with the query's very address and length, and nothing only when there is none |
| BirdMatch.BestCoveringRoute | rpcd-mod-bird/src/birdconfig.uc:491-516 | Returns the first of the longest entries that cover the query, and nothing only when none covers it |
| BirdMatch.LongestIsUnique | rpcd-mod-bird/src/birdconfig.uc:491-516 | There is only one such entry |
| BirdMatch.ExactIsLongest | rpcd-mod-bird/src/birdconfig.uc:467-516 | On a table without host bits an exact match is also the longest covering entry |
| BirdMatch.ExactIgnoresHostBitsIff | rpcd-mod-bird/src/birdconfig.uc:458-482 | On such a table the exact lookup ignores host bits, as its description promises, if and only if the query has none or its network is not in the table |
| BirdMatch.ExactMissesHostBits | rpcd-mod-bird/src/birdconfig.uc:458-482 | Counterexample: a query with host bits misses its own network |
| BirdReply.CleanReply | rpcd-mod-bird/src/bird.uc:108-130 | Keeps the lines before the first status line that the next rows describe |
| BirdReply.CleanKeepsLines | rpcd-mod-bird/src/bird.uc:108-130 | Lines that do not end a reply are all kept, in order |
| BirdReply.CodeIsCut | rpcd-mod-bird/src/bird.uc:75 | A line of four digits, a blank or hyphen and a text is kept as that text |
| BirdReply.OthersAreKept | rpcd-mod-bird/src/bird.uc:121-125 | Any other line is kept as it is |
| BirdReply.BlanksGo | rpcd-mod-bird/src/bird.uc:114-115 | Empty lines do not matter |
| BirdReply.StatusIs | rpcd-mod-bird/src/bird.uc:73 | The lines that end a reply start with 0, 8 or 9 and three digits, and nothing or a blank follows |
| BirdReply.ReplyCodeIs | rpcd-mod-bird/src/bird.uc:136-140 | The code read is that of the last line, however many newlines end the data |
| BirdReply.CompleteIffWhole | rpcd-mod-bird/src/bird.uc:88-101 | For every reply of BIRD and every point it may be cut at, it is taken as over if and only if all of it has arrived |
| BirdReply.WholeReply | rpcd-mod-bird/src/bird.uc:136-140 | A whole reply yields the code of its status line and all its lines |
| BirdReply.CutReadsAsSuccessIff | rpcd-mod-bird/src/bird.uc:88-140 | For every reply of BIRD whose lines do not read as errors and every cut of it: what is left reads as success if and only if the reply is one or part of its status code is cut off |
| BirdReply.CompleteSuccessIff | rpcd-mod-bird/src/bird.uc:88-140 | For every reply and every cut: complete and below code 1000 are together exactly the success replies that have arrived whole |
| BirdReply.NothingReadsAsSuccess | rpcd-mod-bird/src/bird.uc:136-140 | Counterexample: an empty reply reads as code 0, which callers take for success |
| BirdTransaction.EditKeepsTidy | rpcd-mod-bird/src/birdconfig.uc:539-659 | Edits keep the blocks of the interfaces served from overlapping |
| BirdTransaction.EditKeepsCosts | rpcd-mod-bird/src/bird.uc:31-34 | An edit records the new cost and keeps every cost already on record |
| BirdTransaction.Router.AcquireReconfigLock | rpcd-mod-bird/src/bird.uc:566-579 | A handle stays open exactly when the lock was taken |
| BirdTransaction.Router.Receive | rpcd-mod-bird/src/bird.uc:176-184 | What is read is a prefix of what BIRD sends, and reading goes on until the reply is over, the connection ends or 256 chunks have come |
| BirdTransaction.Router.BirdRaw | rpcd-mod-bird/src/bird.uc:149-200 | With a complete reply a code below 1000 means that BIRD accepted the checked text, or runs the applied one; a check changes nothing |
| BirdTransaction.Router.SetOspfCost | rpcd-mod-bird/src/bird.uc:755-836 | The default configuration is never written, the lock is released on every path, a promoted text is the edit of its source and, if the reply to the check was complete, was accepted by BIRD, the running configuration changes to the promoted text only, and code 0 on a complete reply means it runs. For every reply of BIRD, every cut of the check's and every single failure of lock, files or rename, the code of the answer is exactly the one of the first thing that goes wrong, and 0 if nothing does |
| BirdTransaction.Router.Serve | rpcd-mod-bird/src/bird.uc:30-41 | Over any run of calls and deletions of the runtime file: the default is never written, the lock is free again, what is promoted on a complete reply has passed the check, and the runtime configuration carries every cost promoted since it was last deleted or could not be read |
| BirdTransaction.RejectedIsPromotedIff | rpcd-mod-bird/src/bird.uc:809-822 | For every configuration, every reply that rejects it and every cut of that reply: the rejected text is promoted if and only if part of the status code is cut off, and never on a complete reply |
| StickyMarks.CollectIfaces | vpn-sticky/files/vpn-sticky.nft.uc:56-66 | The loop lists the tunnels that the next rows describe |
| StickyMarks.CollectedIff | vpn-sticky/files/vpn-sticky.nft.uc:56-66 | A tunnel is listed exactly when a section describes it in full |
| StickyMarks.CollectedInOrder | vpn-sticky/files/vpn-sticky.nft.uc:56-66 | Sections are taken in order, each giving one tunnel, under its name or its id, or none |
| StickyMarks.UniqueLan | vpn-sticky/files/vpn-sticky.nft.uc:41-49 | Every named LAN interface once, in the order they are listed |
| StickyMarks.MatchesIff | vpn-sticky/files/vpn-sticky.init:119-132 | A policy rule matches a packet exactly when both agree under the mask: bits of the configured mark outside it do not matter |
| StickyMarks.OtherBitsUntouched | vpn-sticky/files/vpn-sticky.nft.uc:78-91 | No bit outside the mask changes, in the connection's mark or in a packet's |
| StickyMarks.ReplyMarks | vpn-sticky/files/vpn-sticky.nft.uc:82-91 | The chain of rules sets a reply's sticky bits to its connection's if some tunnel has them, and does nothing otherwise |
| StickyMarks.StickyForever | vpn-sticky/files/vpn-sticky.nft.uc:75-77 | Over any packets, a connection's sticky bits never change once set, and stay unset until an original packet arrives on a tunnel |
| StickyMarks.FirstTunnelWins | vpn-sticky/files/vpn-sticky.nft.uc:75-77 | The first tunnel a new connection uses decides its mark for good |
| StickyMarks.ReplyUsesTunnel | vpn-sticky/files/vpn-sticky.init:119-132 | A marked reply is looked up in its tunnel's table, whatever other rules exist that give way |
| StickyMarks.RepliesGoBack | vpn-sticky/files/vpn-sticky.nft.uc:65-91 | End to end: a connection first seen on a tunnel has every local reply, and every reply from a LAN interface or from any when none is configured, looked up in that tunnel's table, whatever else happens to it |
| StickyMarks.SteersIff | vpn-sticky/files/vpn-sticky.nft.uc:65 | Tunnels with tables of their own steer replies correctly and leave other packets alone if and only if their marks differ and none is zero under the mask |
| StickyRoutes.StaleIff | vpn-sticky/files/vpn-sticky.init:172-182 | Stale are exactly the old lines that are not new ones |
| StickyRoutes.Service.EnsureRule | vpn-sticky/files/vpn-sticky.init:119-132 | Afterwards the preference holds the wanted rule alone; a rule that is already right is left alone if and only if `ip` prints it in the words compared with |
| StickyRoutes.Service.ApplyFamily | vpn-sticky/files/vpn-sticky.init:143-151 | One rule, and all prefixes of the family when the tunnel is up; only objects that differ from the wanted ones, and rules printed in other words, are missing meanwhile |
| StickyRoutes.Service.RemoveStale | vpn-sticky/files/vpn-sticky.init:172-182 | Exactly the objects of stale lines are removed |
| StickyRoutes.Service.FlushLegacy | vpn-sticky/files/vpn-sticky.init:186-200 | Everything under the configured preferences and tables is removed, nothing else |
| StickyRoutes.InitCollectIfaces | vpn-sticky/files/vpn-sticky.init:45-65 | The init script's loop lists the sections that name their interface and are complete, in order |
| StickyRoutes.SameTunnelsIff | vpn-sticky/files/vpn-sticky.init:45-65 | Init script and nft template see the same tunnels if and only if every section that describes one in full names its interface |
| StickyRoutes.Service.ApplyRoutes | vpn-sticky/files/vpn-sticky.init:202-222 | The wanted objects are added before the stale ones are removed, the state file lists the wanted ones, only stale or outdated objects are missing at any moment, and a right rule printed in other words is |
| StickyRoutes.Service.Stop | vpn-sticky/files/vpn-sticky.init:292-301 | Everything the state file lists is removed, or without one what the configuration names |
| StickyLaws.LineKeys | vpn-sticky/files/vpn-sticky.init:114-151 | The state file lists exactly the keys of the wanted rules and routes |
| StickyLaws.WantedPresentIff | vpn-sticky/files/vpn-sticky.init:202-222 | After a reload every wanted rule is there, and every wanted route if and only if no removed line names a wanted route in different words |
| StickyLaws.RewordedRouteIsLost | vpn-sticky/files/vpn-sticky.init:202-222 | Counterexample: changing default into 0.0.0.0/0 deletes the route that was just replaced |
| StickyLaws.DistinctTextsNeverAlias | vpn-sticky/files/vpn-sticky.init:172-182 | If different prefix texts name different networks, that never happens |
| StickyLaws.AllServedIff | vpn-sticky/files/vpn-sticky.init:119-132 | Every tunnel has its rule if and only if tunnels sharing a preference want the same rule |
| StickyLaws.InstalledRules | vpn-sticky/files/vpn-sticky.init:119-151 | When every section that describes a tunnel names its interface and preferences are distinct, the rules installed are exactly the ones the packet theorems speak of, one of each tunnel in each family in use |
| StickyLaws.AllInstalledIff | vpn-sticky/files/vpn-sticky.nft.uc:57 | With distinct preferences every tunnel that replies are marked for has its policy rule if and only if every section that describes a tunnel names its interface |
| StickyLaws.UnnamedTunnelIsUnserved | vpn-sticky/files/vpn-sticky.nft.uc:57 | Counterexample: for a section without a name replies get the tunnel's mark and no policy rule is installed |
| StickyLaws.RoutesServed | vpn-sticky/files/vpn-sticky.init:95-151 | With a table of its own, every tunnel that is up has all its routes through it in each family in use: the default route when no prefixes are configured, else default and every prefix written in the family's way |
| StickyLaws.WantedRoutesIff | vpn-sticky/files/vpn-sticky.init:95-151 | Wanted are exactly those routes, while the service is enabled |
| StickyLaws.DisabledWantsNothing | vpn-sticky/files/vpn-sticky.init:202-222 | A service that is switched off wants no rule, no route and no state line |
| StickyLaws.LastingIsKept | vpn-sticky/files/vpn-sticky.init:20-23 | Make before break: an object present before and wanted after a reload is neither stale nor outdated, unless it is a rule printed in other words |
| StickyLaws.Reload | vpn-sticky/files/vpn-sticky.init:202-222 | Afterwards the kernel holds exactly the wanted objects besides the foreign ones; of the objects wanted before and after, exactly the rules printed in other words were missing at some moment of the reload |
| StickyLaws.FirstReload | vpn-sticky/files/vpn-sticky.init:202-222 | So it does after the first reload without a state file, foreign being what the configuration does not name |
| StickyLaws.Lifetime | vpn-sticky/files/vpn-sticky.init:202-230 | Over any run of reloads and lost devices every reload is exact and makes before it breaks, as above, and after a stop exactly the foreign objects are left |
| Report.ReportBuffer.Add | pbs-helper/files/helper.uc:112-140 | Head and tail stay the longest runs of first and of last clipped lines that fit their limits |
| Report.LimitsAre | pbs-helper/files/helper.uc:112-140 | Those are 3000 and 6900 bytes with newlines, and a longer line is clipped to 6899 |
| Report.ReportBuffer.DropOldest | pbs-helper/files/helper.uc:135-139 | The oldest lines are dropped until the rest fits, and no more of them |
| Report.ReportBuffer.Report | pbs-helper/files/helper.uc:141-150 | The text is head, marker and tail, at most 9900 + 24 + digits(omitted) bytes long |
| Report.HeadIsUnique | pbs-helper/files/helper.uc:117-122 | The lines added determine the head |
| Report.TailIsUnique | pbs-helper/files/helper.uc:123-139 | The lines added determine how many are omitted |
| Report.NewestSurvives | pbs-helper/files/helper.uc:125-139 | The newest line always survives, clipped |
| Report.JoinSize | pbs-helper/files/helper.uc:149 | A joined text is one byte shorter than its lines with their newlines |
| ShellQuote.QuoteIsRead | pbs-helper/files/helper.uc:43-45 | A shell reads a quoted argument as one piece of a word, unchanged (sections 2.2.1 and 2.2.2 of XCU) |
| ShellQuote.ArgumentsRoundTrip | pbs-helper/files/helper.uc:94-97 | For all argument lists, a shell splits the command into the program and exactly those arguments |
| ShellQuote.BackupCommand | pbs-helper/files/helper.uc:86-100 | For all servers and argument lists: after the old passwords are unset, a shell sees exactly the assignments of repository, password command and, if there is one, fingerprint, then the client with exactly those arguments |
| Qmp.Client.NextMessage | qemu-instance-init/files/qmp.uc:31-60 | Yields the first message of the bytes received and still to come, however they are split and with every 0xFF removed; no message is given up while a whole one has been received, and on a timeout nothing is lost |
| Qmp.Client.Execute | qemu-instance-init/files/qmp.uc:65-89 | The answer is the first reply, or first line that is no JSON, among all messages; without one only events were consumed, nothing received is left unread, and with a prompt peer there is none |
| Qmp.Client.Negotiate | qemu-instance-init/files/qmp.uc:114-130 | Succeeds only after a greeting and a successful reply, and with a prompt peer exactly then; the connection is closed otherwise |
| Qmp.Client.AgentSession | qemu-instance-init/files/qmp.uc:158-188 | Without a read error it succeeds if and only if the answer to the sync is among the first eight messages; the connection stays open exactly then, positioned behind it; a read error means a line that is no JSON, nothing received left unread, or a request that was not sent; with a prompt peer it succeeds exactly when the answer is among the first eight messages behind nothing but JSON |
| Qmp.MessagesAppend | qemu-instance-init/files/qmp.uc:34-58 | Messages of a stream of whole lines and of what follows are read one after the other |
| Qmp.StripIs | qemu-instance-init/files/qmp.uc:31-60 | Bytes 0xFF are dropped and all others kept in order |
| Qmp.LineIsMessage | qemu-instance-init/files/qmp.uc:34-58 | Every line is a message unless it is blank, and what follows the last newline is none yet |
| Qmp.OwnReplyIff | qemu-instance-init/files/qmp.uc:74-88 | A request gets its own reply if and only if no reply to an earlier one is pending |
| Qmp.Request | qemu-instance-init/files/qmp.uc:65-95 | On any stream of whole lines: each request adds its reply to those owed, an answer is always the oldest one owed, a timeout takes nothing away and leaves nothing received unread, and a prompt peer's answer never times out |
| Qmp.Converse | qemu-instance-init/files/qmp.uc:65-89 | Without losses the k-th request gets the k-th reply, whatever events are mixed in; with a prompt peer there are none |
| Qmp.LostReplyShiftsTheRest | qemu-instance-init/files/qmp.uc:74-88 | Counterexample: after a lost reply the next request gets that one's |
| Qmp.SyncIsFound | qemu-instance-init/files/qmp.uc:171-184 | A sync with a fresh id is found behind exactly the stale messages |
| TemplateCache.Wrapper.Apply | uwsd/files/utpl-wrapper.uc:121-138 | Whatever others do to a covered tree, nothing but edits out of the watcher's sight goes by without an event that drops the cache; a write leaves one exactly if its directory is watched and the name is a template's or the queue overflows |
| TemplateCache.AllKnown | uwsd/files/utpl-wrapper.uc:147-158 | If every subdirectory of a watched directory is watched, so is everything below the document root |
| TemplateCache.Wrapper.Enqueue | uwsd/files/utpl-wrapper.uc:86-92 | With a bounded queue, something that matters is queued afterwards exactly if it was before, the event matters or the queue is full |
| TemplateCache.Wrapper.Interfere | uwsd/files/utpl-wrapper.uc:121-138 | Whatever others do, and however often, a watched tree stays covered: no edit in sight goes by without a pending event |
| TemplateCache.Wrapper.WatchDirs | uwsd/files/utpl-wrapper.uc:147-158 | With directories coming and going all the time, afterwards every directory below is watched or an event is pending, because each is watched before it is listed |
| TemplateCache.Wrapper.EnsureWatcher | uwsd/files/utpl-wrapper.uc:169-205 | A new watcher covers the document root |
| TemplateCache.Wrapper.PollWatcher | uwsd/files/utpl-wrapper.uc:211-229 | The cache is dropped if and only if a queued event matters; afterwards no cached template is older than an edit in sight before the poll, and the tree is covered again, whatever had been refused before |
| TemplateCache.Wrapper.GetTemplate | uwsd/files/utpl-wrapper.uc:344-368 | Returns what it caches and caches nothing else; with the watcher a hit is returned as it is; cache and tree stay consistent while files change during stat and load |
| TemplateCache.Wrapper.Request | uwsd/files/utpl-wrapper.uc:198-229 | With the watcher, unless a watch was refused or the root was missing when watches were last added, a template is current with all edits before the request if and only if none since it was read was to a file of its own out of sight; so it is current if all its files are templates and modules below the root. Without the watcher it was read now or its file has the same time and size |
| TemplateCache.ServesIff | uwsd/files/utpl-wrapper.uc:322-329 | What is served lies below the document root, or has the root's text as a prefix that does not end at a slash; nothing else is served |
| TemplateCache.PlaceReads | uwsd/files/utpl-wrapper.uc:310-323 | The place of a file below the root, directories and name, spells its real path |
| TemplateCache.PlaceIs | uwsd/files/utpl-wrapper.uc:310-323 | A file below the root is placed by its directories and name, whether or not the root's text ends at a slash |
| TemplateCache.PlaceIsOutside | uwsd/files/utpl-wrapper.uc:322-329 | A path that does not continue the root's text behind a slash lies outside |
| TemplateCache.StaleEvents | uwsd/files/utpl-wrapper.uc:121-138 | Missed events, a vanished directory, a changed subdirectory and a file whose name ends in .ut or .uc drop the cache; other files do not |
| TemplateCache.EditThenRequest | uwsd/files/utpl-wrapper.uc:349-350 | For every state of a running watcher: after a write a template cached before is served as it was if and only if no event was pending, and the file's directory is not watched or its name is no template's and the queue was not full |
| TemplateCache.WriteBetween | uwsd/files/utpl-wrapper.uc:198-368 | From the start, with nothing else happening: a write between two requests goes unnoticed if and only if the file does not lie below the root under a name that ends in .ut or .uc, or the root's watch was refused |
| TemplateCache.ImportedEditIsMissed | uwsd/files/utpl-wrapper.uc:58-62 | Counterexample: an edit of a module imported from outside the document root is not noticed |
| TemplateCache.SiblingEditIsMissed | uwsd/files/utpl-wrapper.uc:328 | Counterexample: /www serves /www2/x.ut and does not notice its edits |
| TemplateCache.UnwatchedEditIsMissed | uwsd/files/utpl-wrapper.uc:148-149 | Counterexample: the kernel refuses the root's watch and edits are not noticed |
| UrlCoding.UrlEncode | uwsd/files/utpl-wrapper.uc:270-289 | The loop yields the encoding that every byte string is decoded from |
| UrlCoding.UrlDecode | uwsd/files/utpl-wrapper.uc:240-259 | The loop yields the decoding that inverts the encoding, and leaves other characters alone |
| UrlCoding.EncodeRoundTrip | uwsd/files/utpl-wrapper.uc:240-289 | Every byte string is decoded from its encoding |
| UrlCoding.EncodedIsFree | uwsd/files/utpl-wrapper.uc:270-289 | An encoding contains unreserved characters and escapes only (sections 2.1 and 2.3 of RFC 3986) |
| UrlCoding.EncodedChars | uwsd/files/utpl-wrapper.uc:270-289 | Letters, digits and the four unreserved signs stay as they are, and an encoding holds nothing else but percent signs |
| UrlCoding.PlusIsBlank | uwsd/files/utpl-wrapper.uc:240-259 | In a form value a plus sign is read as a blank |
| UrlCoding.EscapeIsRead | uwsd/files/utpl-wrapper.uc:240-259 | An escape is read with hexadecimal digits of either case |
| UrlCoding.PlainIsKept | uwsd/files/utpl-wrapper.uc:240-259 | Characters that start no escape and are no plus sign are kept |
| UrlCoding.ParseForm | uwsd/files/utpl-wrapper.uc:376-399 | The loop collects the decoded fields of the body, whose values are then all found under their names |
| UrlCoding.CollectedValues | uwsd/files/utpl-wrapper.uc:388-396 | Every value is kept under its name and in order, and no name without a value |
| UrlCoding.ValueAt | uwsd/files/utpl-wrapper.uc:388-396 | A value stands behind those of the earlier fields of its name |
| UrlCoding.PairIs | uwsd/files/utpl-wrapper.uc:380-386 | A pair is cut at its first equals sign, and has an empty value without one |
| UrlCoding.FormRoundTrip | uwsd/files/utpl-wrapper.uc:376-399 | A body of encoded fields gives back exactly those fields |
| UnitEscape.EscapeUnitBytes | proxmox-backup/patches/0002-remove-libsystemd-linking.patch:129-161 | The loops yield the name that unescapes to the input |
| UnitEscape.UnescapeUnitDo | proxmox-backup/patches/0002-remove-libsystemd-linking.patch:198-230 | The loop terminates on every input with the bytes or the first error |
| UnitEscape.EscapeRoundTrip | proxmox-backup/patches/0002-remove-libsystemd-linking.patch:129-230 | Every byte string is unescaped from its unit name; a path without its leading slashes, or as the root directory |
| UnitEscape.EscapeIsUnitName | proxmox-backup/patches/0002-remove-libsystemd-linking.patch:145-158 | A unit name never starts with a dot and holds only characters unit names may hold |
| UnitEscape.NamesStay | proxmox-backup/patches/0002-remove-libsystemd-linking.patch:145-158 | Letters, digits, underscores and dots stay as they are, but for a leading dot |
| UnitEscape.PathRoundTrip | proxmox-backup/patches/0002-remove-libsystemd-linking.patch:129-230 | A path comes back from its unit name without its leading slashes, slash by slash, or as the root directory |
| UnitEscape.UnescapeIff | proxmox-backup/patches/0002-remove-libsystemd-linking.patch:198-230 | Unescaped are exactly the sequences of single characters and of escapes with two hexadecimal digits, as exactly those bytes |
| UnitEscape.BadEscape | proxmox-backup/patches/0002-remove-libsystemd-linking.patch:198-230 | The first escape that is none decides the error: too short, unknown or with a bad digit |
| AsGraph.Builder.AddNode | luci-app-bird/htdocs/luci-static/resources/view/bird/status.js:434-440 | A node is added once |
| AsGraph.Builder.AddEdge | luci-app-bird/htdocs/luci-static/resources/view/bird/status.js:442-450 | An edge is added once, in either direction, and never from a node to itself |
| AsGraph.BuildAsGraph | luci-app-bird/htdocs/luci-static/resources/view/bird/status.js:428-480 | A simple undirected graph whose nodes are this router, first, and the systems on the paths as its peers |
| AsGraph.LocalAsIsFirst | luci-app-bird/htdocs/luci-static/resources/view/bird/status.js:452-459 | This router's number is the first one known, and unknown only if all are |
| AsGraph.AllKeysIff | luci-app-bird/htdocs/luci-static/resources/view/bird/status.js:462-477 | Its edges are exactly the neighbours on paths and this router with the first hop of each |
| AsGraph.EveryNodeIsConnected | luci-app-bird/htdocs/luci-static/resources/view/bird/status.js:475-477 | Every node is connected to this router |

## Left out

- Backup.ConsistentBackup: does not promise that a freeze or an overlay whose reply was lost or late is undone, because the code acts on the replies it reads; FreezeLeftIff and OverlayLeftIff say exactly when one is left.
- Backup.FreezeGuest: takes every request to have one reply in the stream, as `Qmp.Answers` does; an agent that restarts in the guest and drops one for good is not modelled.
- Backup.TakeSnapshot: a snapshot LV saves a number of blocks, a parameter for what `lvcreate` makes of the size; LVM's chunk size and metadata are not modelled, and what the client makes of a read error is arbitrary.
- Backup.Commit: cannot exclude a job that died after block-job-complete, because the code takes a vanished job for a finished one.
- Backup.Operate: takes programs of one instance not to overlap, because the code has no lock; a second backup or a start during the read would commit during it.
- BirdTransaction.Router.SetOspfCost: does not promise that a promoted text was accepted when the reply to the check was cut, because the code does not look; RejectedIsPromotedIff says exactly when.
- BirdTransaction.Router.Serve: does not say that a promoted text runs after a failed `configure`, because the code leaves it promoted and answers 1.
- BirdConfig.TextEditsCommute: asks for disjoint blocks, the case configurations have; the exact condition is the one of EditsCommuteIff.
- StickyLaws.Reload: takes `ip` additions to succeed, because the code only logs a failure.
- StickyRoutes.Service.ApplyRoutes: preferences and tables are numbers, and how `ip` reads prefix texts is a parameter; other spellings of one number are not modelled. How `ip` prints a rule is a parameter, and names hold no blanks or bars.
- TemplateCache.Wrapper.Request: takes the resolved path; which modules a template imports is arbitrary, as the interpreter resolves them.
- TemplateCache.Wrapper.WatchDirs: paths deeper than 4096 components count as refused watches, as the kernel refuses them.
- Qmp.Client.Execute: JSON is a parameter that classifies lines; message contents beyond reply, error, event and greeting are not modelled.
- UrlCoding.UrlDecode: what the decoder makes of a malformed escape is a parameter.
- ShellQuote.BackupCommand: the leading `unset` command and the final redirection are fixed text around the words proved about.
- The option defaults of `consistency_plan` in qemu-backup.uc are parameters (`Backup.Plan`); several instances per run and argument building are left out.
- Texts of notes, log lines and Gotify messages, the body of pings and the pause between two of them.
- Mark texts: hexadecimal and decimal marks are numbers, and marks with leading zeros, which the shell and the template read differently, are excluded.
- Rendering of the nft text, and loading it; that the kernel replaces a table atomically.
- Routes of BIRD beyond their prefix, and the parsers of BIRD's output; regular-expression extraction adds only easy members.
- Path resolution of the template wrapper apart from its prefix test, headers, cookies and request handling.
- The UTF-8 check of `unescape_unit`; escaping is proved on bytes.
- Labels and layout of the AS graph.
- Prometheus exporters, netifd protocols, SQLite and inotify bindings, LuCI forms and packaging.
