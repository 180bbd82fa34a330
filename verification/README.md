# A verified model of the manager's stateful core

The manager sits beside a game panel database and a fleet of Wings daemons. Most of what it does is
bookkeeping across two systems that can disagree: it changes panel rows, commits, tells Wings, and takes the
change back when Wings refuses. This project models that bookkeeping in Dafny, with the text formats and
small machines it rests on, and proves what the services, their comments and their documentation promise, or
says exactly when they do not hold.

`dafny verify dfyconfig.toml` checks everything.

## Modules

| file | what it is |
|---|---|
| `Panel.dfy` | servers, allocations and variable rows as tables; every mutation up to its commit, its snapshot and its compensation, as functions; the ownership invariant |
| `PanelEffects.dfy` | when each mutation is accepted and what it changes, row by row, said without the functions that compute it; that refusals are true; whole histories |
| `PanelUndo.dfy` | commit followed at once by compensation: exactly when everything is restored |
| `PanelRuns.dfy` | other operations between a commit and its compensation |
| `PanelWorlds.dfy` | any number of calls in flight, answered in any order or never; erasing failed calls from a history |
| `PanelOwnership.dfy` | ownership over every run: exactly which runs keep it |
| `PanelVariables.dfy` | the variable rows over every run: exactly which runs keep them fitting their egg |
| `PanelStore.dfy` | the same mutations as methods of a class whose tables are updated in place, proved against `Panel` |
| `Deletion.dfy` | deleting a server: Wings, the remote databases, the panel rows with their foreign key, and retries |
| `WingsConfig.dfy` | configuration edits, the patches pushed to Wings and where they are addressed, and which leaves agree afterwards |
| `WingsListener.dfy` | the port and scheme Wings really listens on, and what else takes effect only at a restart |
| `Base64.dfy`, `Laravel.dfy` | the encrypted envelope of daemon tokens down to the bytes: base64 (section 4 of RFC 4648), padding (section 6.3 of RFC 5652), block chaining (section 6.2 of NIST SP 800-38A), the serialised string and the pattern that opens it |
| `Credentials.dfy` | token rotation, the node cache, and whether panel and Wings can still talk to each other |
| `CredentialRuns.dfy` | the same over whole runs, with lookups in their two steps |
| `Consent.dfy` | agreements, versions, acceptances and who has what pending |
| `ConsentRuns.dfy` | registration over its two requests, with anything in between; what gets into the register list |
| `Settings.dfy` | the typed settings codec, and single reads and stores of the cache over a table that others write |
| `SettingsRuns.dfy` | reads and stores in their steps, interleaved with anything |
| `Rules.dfy`, `Text.dfy` | the rule language of egg variables, as the validator runs it |
| `RuleMeaning.dfy` | the rules as an author writes them, what each asks of a text, and that the validator accepts exactly that |
| `TokenEditor.dfy` | rewriting one line of a YAML text |
| `TlsReload.dfy`, `AtomicWrite.dfy` | the certificate poller and the file replacement it watches |
| `Common.dfy` | `Option`, `Result`, and picking from a set |

Wherever the source works by steps the model is a class or a loop, proved against a function; the properties
are lemmas about that function. What a call depends on outside the panel (whether Wings accepts, whether the
compensating commit goes through, how a remote drop ends, what an HTTP exchange returns) is a parameter, so
each theorem holds for every behaviour of the outside world that its `requires` admits.

## What does not hold

Where the code does less than it or its documentation says, the code is modelled as it is, and the exact
condition is proved.

- **Build limits are not always restored.** The restore passes the old limits through the same update that
  skips `None`. It is exact unless a NULL `allocation_limit` or `database_limit` was filled in, or the thread
  pin was an empty string, which comes back NULL (`PanelUndo.BuildUndoExactIff`, `PanelUndo.BuildUndoLeaves`).
- **A refused creation loses notes.** The row deletion that undoes it clears the notes of every allocation it
  took, also notes from before (`PanelUndo.CreateUndoExactIff`).
- **A late restore can lose ownership.** Nothing stops a second call from writing what a pending compensation will
  write. The restore assigns every snapshotted column, but a session that still has a row, or reads it from an old
  snapshot, writes only the columns that differ from what it sees (app/db/session.py:40-45). So it can bind another
  server's primary to its own (`PanelOwnership.UndisciplinedRunBreaksOwnership`), and it can unbind its own server's
  primary without moving it back (`PanelOwnership.OwnPrimaryIsUnbound`). `PanelUndo.RestoreKeepsOwnershipIff` is the
  exact condition for one restore, `PanelOwnership.OwnedThroughoutIff` the one for every run the code admits,
  whatever its sessions see; `PanelWorlds.OwnershipAlwaysHolds` shows that the discipline "do not name what a pending
  compensation may write" suffices. The code has no such guard.
- **A late restore can mix two eggs.** It puts the variable rows back unconditionally, but the egg only if its own
  call changed it: a refused startup or variable edit after an interleaved egg switch leaves the new egg with the old
  egg's rows (`PanelVariables.RefusedEditMixesEggs`). `PanelVariables.AlignedThroughoutIff` says over every run when
  the rows fit throughout, and `PanelVariables.DisciplineFits` that the discipline suffices.
- **A push can go where nobody listens.** Wings binds a new port or scheme only when it is restarted
  (app/services/wings_config.py:8-12), but the next push already goes there. It is heard exactly when the panel's
  address is what it was at the latest restart (`WingsListener.PushIsHeardIff`); until then no edit arrives
  (`WingsListener.NothingArrives`).
- **A stored setting may not be read back.** The store forgets the key before it commits, and a read that found the
  old row earlier fills the cache afterwards (`SettingsRuns.StaleReadAfterStore`); what is read is what was stored
  except exactly then (`SettingsRuns.StoredValueIsReadIff`). And a store that changes nothing it has selected is lost
  to a concurrent writer (`SettingsRuns.UnchangedStoreIsLost`).
- **A node cache entry can be stale for a minute** when a lookup that has read the row fills the cache after a
  rotation has cleared it (`CredentialRuns.LateFillIsStale`); none ever is exactly when no lookup does that
  (`CredentialRuns.CoherentThroughoutIff`).
- **The atomic file write is not durable yet when it returns.** The directory is never synced, so a power loss
  afterwards finds exactly the old file or the new data (`AtomicWrite.SuccessMayBeLost`); the docstring promises
  durability.
- **Dropping remote databases is not quite best-effort.** The documentation (app/services/remote_mysql.py:93-106)
  says every entry is attempted independently, failed ones stay in the panel for an operator, and the lifecycle
  continues. Only `PanelDatabaseError` is caught, and any other exception of the MySQL client ends the deletion
  with the panel unchanged (`Deletion.ServerDeletion.DropServerDatabases`). And `databases.server_id` is a NOT NULL
  foreign key (app/db/models/pterodactyl.py:321), so a failed entry cannot stay beside a deleted server: if the key
  restricts, one refused drop undoes the whole deletion; if it cascades, the entry vanishes with the server
  (`Deletion.CompletesIff`, `Deletion.RefusedRowIsNotKept`). Which of the two is not declared in the repository, so
  it is a parameter.
- **The envelope round trip** holds exactly for non-empty text without a line feed (`Laravel.RoundTripIff`).
- **The panel does not read every text the service encrypts**: the length in the frame counts characters and PHP counts
  bytes, so it reads exactly the texts whose counts agree (`Laravel.PanelReadsBackIff`), every generated token among
  them (`Credentials.TokensReachThePanel`).
- **Rotation** keeps both sides in agreement exactly when Wings swaps its token as it reports. A lost answer
  after a swap leaves them apart (`Credentials.RotationAgreesIff`).
- **The register list is not restricted to global agreements**, neither by its query nor by the administrator's
  forms. Over every history, only global agreements carry the flag exactly when no accepted form sets it on another
  (`ConsentRuns.FlagsStayGlobalIff`), and a form that does puts a published agreement before every new user
  (`ConsentRuns.OffGlobalFormIsAsked`).
- **Registering does not always leave nothing pending.** The list is validated by one request and recorded by a later
  one; what is pending after that is exactly what was not asked of the form or has been bumped since
  (`ConsentRuns.RegistrationLeavesPendingIff`).
- **`record` is idempotent between calls, not within one**: it violates the unique key exactly when a new item
  occurs twice in one call, which no validated list does (`Consent.RecordUniqueIff`, `Consent.ValidatedListRecords`).
- **The settings codec** returns `None`, floats and other objects as strings (`Settings.CodecInvertsIff`).
- **The token editor** loses a lone CR terminator, and one of the rarer line breaks (a form feed, say) when the line
  has no comment (`TokenEditor.TerminatorKeptIff`); and it escapes nothing, so a token is read back exactly when it has
  no quote and no backslash (`TokenEditor.TokenReadsBackIff`).
- **A certificate replaced between the server's start and the first record** is recorded but never served until a
  certificate with yet another fingerprint arrives (`TlsReload.RecordTruthfulIff`,
  `TlsReload.MissedReplacementStays`).
- **`between` differs from `min` with `max`** on NaN and on values that have no length
  (`Rules.BetweenIsMinAndMax`).

## Model

| member | source | states |
|---|---|---|
| PanelOwnership.OwnedThroughoutIff | app/services/server_management.py:377-485 | Over every run the code admits, disciplined or not and whatever its sessions still see of the rows, ownership holds in every world if and only if the restore of each refused call writes no other server's primary and leaves its own server's bound to it |
| PanelOwnership.DisciplineIsSafe | app/services/server_management.py:462-485 | A run in which nothing names what a pending compensation may write satisfies that condition |
| PanelWorlds.OwnershipAlwaysHolds | app/services/server_management.py:462-485 | In every world a disciplined run reaches, with any number of calls in flight and answered in any order or never, each server's primary allocation exists, is on its node and is bound to it, each bound allocation names a server on its node, and every pending snapshot stays undisturbed and apart from the others |
| PanelWorlds.FailuresCanBeErased | app/services/server_management.py:462-485 | Every disciplined run of exactly undoable mutations reaches the tables of a run without any failure that has the same acceptances and deletions in the same order |
| PanelWorlds.FailureCommutes | app/services/server_management.py:462-485 | A failure that comes after another disciplined event could as well have come before it: same world, and the event stays possible |
| PanelWorlds.DeletedStaysGone | app/services/panel_db.py:525-558 | Once a server is deleted no run, disciplined or not, brings back a row of it or a binding to it, not even a restore of one of its own calls, until a creation is given its key |
| PanelOwnership.UndisciplinedRunBreaksOwnership | app/services/server_management.py:398-411 | A run of two interleaved calls, both legal for the code, after which a server's primary is bound to another server |
| PanelOwnership.OwnPrimaryIsUnbound | app/services/server_management.py:398-411 | A run of two calls on one server, after which its primary is bound to nobody |
| PanelVariables.AlignedThroughoutIff | app/services/server_management.py:440-459 | Over every run the code admits each server's egg lies in its nest and its rows are row for row the variables of the egg with accepted values, in every world, if and only if the restore of each refused configuration call fits: it had switched the egg itself and finds the nest its columns need, or its rows fit the egg of the moment |
| PanelVariables.RestoreKeepsAlignedIff | app/services/server_management.py:440-459 | One restore keeps the rows fitting if and only if it fits in that sense |
| PanelVariables.DisciplineFits | app/services/server_management.py:582-697 | In every disciplined run each restore fits, so the rows do |
| PanelVariables.RefusedEditMixesEggs | app/services/server_management.py:440-459 | A run of two calls after which a server has one egg and another egg's rows |
| PanelVariables.AlignedMeansOneRowEach | app/services/panel_db.py:391-402 | Aligned rows hold exactly one row for each variable of the egg and none for another variable |
| PanelVariables.StoredValuesPassTheirRules | app/services/panel_db.py:334-344 | After every run whose restores fit, each stored value passes the validator under its variable's rules, which `RuleMeaning.AcceptedIff` gives a meaning |
| PanelVariables.StoredValuesMeetTheirRules | app/services/panel_db.py:334-344 | For rules as an author writes them: after every such run a stored value is empty and none of its rules is `required`, or it is filled in and meets each rule, as `RuleMeaning` says that of the text itself |
| PanelRuns.FailedMutationLeavesNoTrace | app/services/server_management.py:462-485 | Commit, any run of other operations, compensations and deletions naming neither the server nor a snapshotted allocation, then compensation, whatever of the rows its session still has: the result is that run alone |
| PanelRuns.ShadowStep | app/services/server_management.py:377-411 | The relation "these tables are those with one failed mutation in place" is kept by every action that avoids what the compensation writes |
| PanelRuns.ActionIsLocal | app/services/server_management.py:377-551 | Every mutation, compensation and deletion gives the same outcome on tables that agree outside a server and its allocations, and leaves those untouched if it does not name them |
| PanelRuns.CommitCastsShadow | app/services/server_management.py:462-485 | An exactly undoable commit leaves tables that differ from the old ones only where its snapshot will write |
| PanelUndo.UndoIsExact | app/services/server_management.py:377-485 | For suspend, unsuspend, reinstall, the three allocation edits, startup edit, egg switch and variable edit, commit and compensation together restore every server field, binding, note and variable row |
| PanelUndo.BuildUndoExactIff | app/services/server_lifecycle.py:343-401 | The build edit is undone exactly if and only if no NULL allocation or database limit was overwritten and the thread pin was not an empty string |
| PanelUndo.BuildUndoLeaves | app/services/server_lifecycle.py:343-401 | What the build compensation leaves in every case, field by field |
| PanelUndo.CreateUndoExactIff | app/services/server_lifecycle.py:175-192 | Dropping a refused server restores the tables if and only if no allocation it took carried a note |
| PanelUndo.AsLeftRestoresAll | app/services/server_management.py:398-459 | While what the call wrote is still there, writing only the columns that differ is writing everything back |
| PanelUndo.RestoreKeepsOwnershipIff | app/services/server_management.py:398-411 | Written over any later owned tables, whatever has happened to them and to its server and whatever the session sees, a snapshot keeps ownership if and only if the restore does not commit, or it writes no other server's primary and what is then its own server's primary is bound to that |
| PanelUndo.FreshRestoreKeepsOwnershipIff | app/services/server_management.py:398-411 | If the session reads every row anew: if and only if no other server's primary is in the snapshot, and the server's own is moved back, outside the snapshot, or was the server's already |
| PanelUndo.UndisturbedRestoreKeepsOwnership | app/services/server_management.py:398-411 | A compensation keeps ownership while what it writes is as the call left it and nobody else's |
| PanelUndo.GoneServerIsNotRestored | app/services/server_management.py:398-411 | The restore of a server deleted since changes nothing, except that an allocation edit that writes no column of the server row still writes the bindings that differ |
| PanelUndo.SnapshotIsProper | app/services/server_management.py:377-395 | A snapshot covers the server's primary, stays on its node, binds rows to that server or nobody, and nobody else holds what it will write when it is taken and when its mutation commits |
| Panel.CommitKeepsOwnership | app/services/panel_db.py:306-389 | Every committed mutation keeps ownership |
| Panel.DeleteRowKeepsOwnership | app/services/panel_db.py:525-558 | Deleting a server row keeps ownership and leaves no allocation bound to it |
| PanelEffects.CreateMeans | app/services/panel_db.py:292-402 | A creation is accepted if and only if owner, node, egg and nest fit, all its allocations are free on the node and every chosen value is accepted; then the server stands field by field as asked, exactly those allocations are bound to it, its rows are the egg's variables with the chosen values, and other servers and rows are unchanged |
| PanelEffects.AddAllocationsMeans | app/services/server_management.py:488-511 | Accepted if and only if every listed allocation is on the node and free or already the server's; then exactly those become the server's and nothing else changes |
| PanelEffects.LastEditBinds | app/services/server_management.py:488-551 | After any accepted history of mutations over all servers each allocation is bound as the latest edit that names it says, as before if none does, and has lost its note exactly if it was ever removed |
| PanelEffects.LastEditIsPrimary | app/services/server_management.py:531-551 | After any such history each server's primary is the last one it was set to, and ownership holds |
| PanelEffects.AddThenRemoveIff | app/services/server_management.py:514-528 | Removing a free allocation that was just added always goes through and restores the tables if and only if it had no note |
| PanelEffects.PrimaryMovesBack | app/services/server_management.py:531-551 | Moving the primary and moving it back always goes through and comes to adding the visited allocation |
| PanelEffects.LastEditIsStatus | app/services/server_lifecycle.py:228-316 | After any accepted history over all servers a server's status is what the latest creation, suspension, lifted suspension or reinstallation of it says, its installation time is gone exactly if it was installed anew, and owner, node and names are as they were |
| PanelEffects.SuspendMeans | app/services/server_lifecycle.py:228-252 | An accepted suspension leaves the status "suspended", and every other column, row and table as it was |
| PanelEffects.UnsuspendMeans | app/services/server_lifecycle.py:255-277 | Lifting a suspension leaves no status, and all else as it was |
| PanelEffects.ReinstallMeans | app/services/panel_db.py:434-442 | A reinstallation leaves the status "installing" and no installation time, and all else as it was |
| PanelEffects.StartupMeans | app/services/server_management.py:554-579 | A startup edit is accepted if and only if no given text is only white space; then each given text stands without the white space at its ends, and all else is as it was |
| PanelEffects.SwitchMeans | app/services/server_management.py:582-645 | An egg switch is accepted if and only if the egg lies in the nest, every request value or default passes its variable's rules and no given text is blank; then egg, nest, given fields and one row per variable stand, and all else is as it was |
| PanelEffects.BuildMeans | app/services/panel_db.py:445-488 | A build edit writes each given limit and no other, and the thread pin exactly when asked to, an empty one as NULL |
| PanelEffects.RefusalIsTrue | app/services/server_management.py:488-697 | Whatever a mutation is refused for is so: the row it names is missing, elsewhere, another server's, primary or not owned, the text is blank, the name no variable, the value refused by the rules of the variable it names |
| PanelEffects.CallMeans | app/services/server_management.py:462-485 | A call of the store succeeds if and only if it is accepted here and by Wings, and then stands; refused here it changes nothing, and refused by Wings nothing either where its compensation commits and is exact |
| PanelEffects.FilledRowsMean | app/services/server_management.py:604-615 | Variable rows are filled if and only if every request value or default is accepted, one row per egg variable in order |
| PanelEffects.EditedRowsAccepted | app/services/server_management.py:664-679 | A variable edit is accepted if and only if every name is a variable of the egg and every value passes its rules |
| PanelEffects.UpdateVariablesMeans | app/services/server_management.py:648-697 | After an accepted variable edit each named variable's row holds its new value, and every other row, server and allocation is as it was |
| PanelStore.PanelDb.BindEach | app/services/server_management.py:497-508 | The loop that checks and binds in one pass refuses with the first fault of the original rows, or binds exactly the listed rows |
| PanelStore.PanelDb.CheckFree | app/services/panel_db.py:306-332 | The validation loop of a creation finds the first allocation that is missing, elsewhere or taken |
| PanelStore.PanelDb.BindAll | app/services/panel_db.py:384-389 | The binding loop binds exactly the listed allocations |
| PanelStore.PanelDb.CheckValues | app/services/panel_db.py:334-344 | The validation loop names the first refused variable, or all values are accepted |
| PanelStore.PanelDb.FillRows | app/services/panel_db.py:391-402 | Validating everything first and inserting afterwards gives the same rows and the same error as one pass |
| PanelStore.PanelDb.EditEach | app/services/server_management.py:664-693 | Editing through an index of the rows as first read is editing them one after another |
| PanelStore.PanelDb.RestoreAllocations | app/services/server_management.py:398-411 | The restore writes the snapshotted primary if the call had moved it, and the bindings and notes that differ from what the session sees, if they satisfy the keys |
| PanelStore.PanelDb.RestoreServerConfig | app/services/server_management.py:440-459 | The restore writes the egg, nest and startup fields that the call had changed, and all snapshotted variable rows |
| PanelStore.PanelDb.DeleteServerRow | app/services/panel_db.py:525-558 | Clearing notes and then deleting, with its foreign-key effects, removes the server and its variable rows and frees its allocations |
| PanelStore.PanelDb.CommitThenSync | app/services/server_management.py:462-485 | On acceptance the new tables stand; on failure they are compensated, or stand if the compensating commit fails too |
| PanelStore.PanelDb.AddAllocations | app/services/server_management.py:488-511 | A refusal changes nothing, acceptance commits, and a Wings failure ends in the compensated tables |
| PanelStore.PanelDb.RemoveAllocation | app/services/server_management.py:514-528 | The same contract for the removal of an allocation |
| PanelStore.PanelDb.SetPrimaryAllocation | app/services/server_management.py:531-551 | The same contract for a new primary |
| PanelStore.PanelDb.UpdateStartup | app/services/server_management.py:554-579 | The same contract for a startup edit, which refuses blank images and commands |
| PanelStore.PanelDb.SwitchEgg | app/services/server_management.py:582-645 | The same contract for an egg switch with its variable rows |
| PanelStore.PanelDb.UpdateVariables | app/services/server_management.py:648-697 | The same contract for a variable edit |
| PanelStore.PanelDb.CreateServer | app/services/server_lifecycle.py:112-206 | The same contract for a creation, undone by deleting the row; its owner counts as having owned a server if and only if it succeeds |
| PanelStore.PanelDb.SetServerStatus | app/services/panel_db.py:416-431 | Writes one server's status and nothing else, or finds no server |
| PanelStore.PanelDb.SuspendServer | app/services/server_lifecycle.py:228-252 | The same contract for a suspension, which leaves the status "suspended" on success and the old tables when Wings refuses and the compensation commits |
| PanelStore.PanelDb.UnsuspendServer | app/services/server_lifecycle.py:255-277 | The same contract for lifting a suspension, which leaves no status on success and the old tables when Wings refuses and the compensation commits |
| PanelStore.PanelDb.ReinstallServer | app/services/server_lifecycle.py:280-316 | The same contract for a reinstallation, which leaves "installing" and no installation time on success and the old tables when Wings refuses and the compensation commits |
| PanelStore.PanelDb.UpdateServerLimits | app/services/panel_db.py:445-488 | Writes exactly the given limits, the thread pin when asked to, and nothing else |
| PanelStore.PanelDb.UpdateServerBuild | app/services/server_lifecycle.py:319-401 | The same contract for a build edit, undone through the same update |
| Deletion.RetriesDoNotMatter | app/services/server_lifecycle.py:404-507 | Any number of failed attempts changes nothing, and a completing one after them reaches the panel state it would have reached first |
| Deletion.CompletesIff | app/services/server_lifecycle.py:472-509 | A deletion completes if and only if Wings accepts or the caller forces, no drop escapes and, under a restricting key, no drop is refused |
| Deletion.CompletedDeletionLeaves | app/services/server_lifecycle.py:487-509 | A completed deletion leaves no server row, variable row, bound allocation or database row of the server, and everybody else's database rows |
| Deletion.AttemptKeepsReferences | app/db/models/pterodactyl.py:317-324 | After every attempt each database row names a server that exists |
| Deletion.RefusedRowIsNotKept | app/services/remote_mysql.py:86-106 | The row of a refused drop outlives its server under neither key: either the deletion is lost or the row is |
| Deletion.ServerDeletion.SweepOrphans | app/services/remote_mysql.py:112-126 | The first loop removes exactly the rows whose host is gone and knows exactly the other hosts |
| Deletion.ServerDeletion.DropServerDatabases | app/services/remote_mysql.py:86-155 | removed is the number of drops, errors are exactly the refused ones, with the orphans they make up all rows, the rows left are the others', and it raises if and only if a drop raises something else than the service's error |
| Deletion.ServerDeletion.DeleteServer | app/services/server_lifecycle.py:404-510 | No remote database is contacted before Wings has accepted or the caller forces; the result is the modelled attempt under either foreign-key action, and the key refuses only after a refused drop |
| WingsConfig.AppliedLeavesAgree | app/api/routers/admin_hosts_wings.py:263-314 | Over any run of edits and push outcomes Wings agrees with the panel on every leaf whose latest affecting edit was applied |
| WingsConfig.CertificatePathsNeverChange | app/services/wings_config.py:169-217 | No run of edits changes the certificate or key path of Wings |
| WingsConfig.PushesCompose | app/services/wings_config.py:183-217 | Two pushes in a row give Wings what one push of both sets of changes from the later state gives, with `scheme` and `behind_proxy` in either |
| WingsConfig.PayloadCarriesTouchedLeaves | app/services/wings_config.py:169-217 | A patch carries the credentials and exactly the leaves derived from a changed field, each as the panel sees it, and there is none if there is no such leaf |
| WingsConfig.TakenEditLeaves | app/services/wings_config.py:163-217 | An edit that Wings took leaves port, upload limit, data directory and SFTP port as edited, and TLS on exactly for `https` without a proxy |
| WingsConfig.RestartRequiredIff | app/services/wings_config.py:66-112 | A column asks for a restart if and only if a leaf other than the upload limit follows it |
| WingsConfig.NodeAdmin.CollectChanged | app/api/routers/admin_hosts_wings.py:263-269 | The comparison loop finds exactly the provided fields that differ |
| WingsConfig.NodeAdmin.WriteChanged | app/api/routers/admin_hosts_wings.py:295-296 | Setting the changed fields gives the node with all provided fields |
| WingsConfig.PushIsAddressed | app/api/routers/admin_hosts_wings.py:277-314 | Over any run a push is addressed to the port Wings is configured with and bears its token, also when the edit moves the port, as long as the latest earlier move of the port was applied |
| WingsListener.PushIsHeardIff | app/services/wings_config.py:70-86 | Over any run of edits and restarts a push meets the listening Wings if and only if the panel's port, and before an unproxied Wings its scheme, are what they were at the latest restart, if Wings agreed on both then |
| WingsListener.MovedPortIsNotHeard | app/services/wings_config.py:8-12 | After an applied move of the port Wings agrees with the panel on it and hears no push |
| WingsListener.NothingArrives | app/api/routers/admin_hosts_wings.py:277-314 | From then on no edit changes Wings' configuration until it is restarted or the address is moved |
| WingsListener.RestartIsAskedIff | app/services/wings_config.py:66-112 | From a Wings that works with what the panel says, an edit it takes has all its effect at once if and only if no changed column asks for a restart, or only scheme and proxy do and TLS stays as it is |
| WingsConfig.NodeAdmin.PutWingsConfig | app/api/routers/admin_hosts_wings.py:251-371 | The endpoint is one step of the modelled run; it saves before it pushes, pushes only when Wings is affected, to the address and with the token from before the edit; it reports an applied push exactly on 204, or 200 with no body or an object whose `applied` is not false, a refused one exactly on an object whose `applied` is false, and an applied one only if every touched leaf now agrees |
| WingsConfig.NodeAdmin.PushToWings | app/services/wings_config.py:220-258 | The push sends the patch of the saved row to the given address, and its reply is told from status and body alone |
| CredentialRuns.CredentialsAlwaysAgree | app/services/wings_config.py:281-339 | Over every run of the steps of lookups, rotations, edits and ticks panel and Wings credentials agree for every node, whatever the cache holds, provided Wings swaps as it reports |
| CredentialRuns.CredentialsAgreeWithPlainWings | app/services/wings.py:246-275 | The same over every run in which Wings answers 204 or `applied: true` when it took the token and `applied: false`, a failure status or nothing when it did not |
| CredentialRuns.ServesWingsTokensIff | app/services/wings.py:110-131 | Over every run in which Wings swaps as it reports every cached token is, in every state, the one Wings has, if and only if no lookup fills the cache with a token that has been replaced since |
| CredentialRuns.CurrentFillsServe | app/services/wings.py:110-131 | So it is when every lookup fills the cache with what its row says |
| Credentials.LookupGivesWingsToken | app/services/wings.py:110-131 | Where panel and Wings agree, every lookup of an existing node, cached or not, gives the token Wings has and the row's address and upload size |
| CredentialRuns.CoherentThroughoutIff | app/services/wings.py:110-131 | Over every run no cache entry is ever stale if and only if no lookup fills the cache with what is no longer in its row |
| CredentialRuns.LateFillIsStale | app/services/wings.py:110-131 | A lookup across a successful rotation leaves a live entry whose token is not the row's |
| Credentials.RotationAgreesIff | app/services/wings_config.py:281-339 | One rotation keeps agreement if and only if Wings swapped as it reported or the credentials did not change |
| Credentials.TakenEditHeals | app/services/wings_config.py:175-190 | A configuration edit that Wings takes brings a node's credentials into agreement, whatever they were |
| CredentialRuns.HealedStaysInAgreement | app/services/wings_config.py:281-339 | And they stay so, whatever other nodes' are, over every run in which Wings swaps as it reports |
| Credentials.RotationPersistsOnlyOnSuccess | app/services/wings_config.py:300-339 | A raising rotation leaves every row; a returning one changes one row, whose ciphertext decrypts to the new token, and empties the cache |
| Credentials.RotationAuthenticates | app/services/wings.py:188-244 | The request authenticates with the token Wings has and goes to the node's address |
| Credentials.LaravelEnvelopeOpens | app/services/wings.py:67-108 | The service's envelope gives every generated token back |
| Credentials.TokensReachThePanel | app/services/wings.py:79-108 | So the panel reads every generated token |
| Credentials.WingsService.GetNodeInfo | app/services/wings.py:110-131 | A live entry is served as it is; otherwise the row's host, scheme, port and upload size with the token its ciphertext opens to, cached for 60 seconds, or an error if there is no row or it does not open |
| Credentials.WingsService.ResetDaemonToken | app/services/wings_config.py:281-339 | The method is the modelled rotation, and returns if and only if the old ciphertext opens and Wings answers 204, or 200 with no body or an object whose `applied` is not false |
| Laravel.RoundTripIff | app/services/wings.py:67-108 | Decrypting what was encrypted gives it back if and only if it is not empty and has no line feed |
| Laravel.PanelReadsBackIff | app/services/wings.py:79-108 | The panel, which checks the MAC and reads the length in the frame as bytes, reads back what was encrypted if and only if the text has as many bytes as characters |
| Laravel.UnserialiseIff | app/services/wings.py:67-108 | The framing pattern gives back exactly the non-empty one-line values, terminators inside them included |
| Laravel.MatchIsGreedy | app/services/wings.py:67-77 | The group is at least as long as in any reading of the text as a frame |
| Laravel.MatchIsFramed | app/services/wings.py:67-77 | A match is such a reading |
| Laravel.DecryptInvertsEncryptBlocks | app/services/wings.py:79-108 | Chained decryption inverts chained encryption over any invertible block cipher |
| Base64.DecodeInvertsEncode | app/services/wings.py:79-108 | Decoding inverts encoding for every byte string |
| Base64.KnownAnswers | app/services/wings.py:79-108 | The test vectors of section 10 of RFC 4648 |
| Base64.UnpadInvertsPad | app/services/wings.py:79-108 | Unpadding inverts padding for every byte string |
| Consent.InvariantAlwaysHolds | app/api/routers/admin_agreements.py:178-302 | Over every history published versions are exactly 1 to current, acceptances are unique and name published versions, the backfilled first aside |
| Consent.MigrationIsSound | alembic/versions/20260718_user_agreements.py:112-143 | The migrated and backfilled tables satisfy the invariant, and every existing user has a version-1 row of both agreements |
| ConsentRuns.RegistrationLeavesPendingIff | app/api/routers/public.py:358-373 | A form is accepted, anything happens but its verification, then that: pending for the user is exactly what was pending anyway and was not asked of the form or has been bumped since |
| ConsentRuns.ConsentEmptiesPending | app/api/routers/public.py:646-681 | Unless an agreement is bumped or updated between the form and its verification, nothing is pending for the user afterwards |
| Consent.NothingPendingUntilLoud | app/services/agreements.py:259-303 | What is not pending stays so until a bump or an administrator's update |
| Consent.ListingIsSorted | app/services/agreements.py:52-87 | A list is in ascending sort order, then by id, so there is just one for a context |
| Consent.BumpMakesPending | app/api/routers/admin_agreements.py:206-279 | A bump makes the agreement pending for everybody past version 1, and at version 1 for everybody without a backfilled row |
| Consent.PatchChangesNobodysPending | app/api/routers/admin_agreements.py:206-279 | A patch in place replaces the current body and changes nobody's pending list |
| Consent.RecordUniqueIff | app/services/agreements.py:189-256 | Recording keeps the rows unique if and only if no new item occurs twice in the call |
| Consent.ValidatedListRecords | app/services/agreements.py:189-256 | A list with each agreement once is recorded without a duplicate, leaves a row for each item, and recording it again inserts nothing |
| ConsentRuns.FlagsStayGlobalIff | app/api/routers/admin_agreements.py:48-136 | Over every history only global agreements carry the register flag if and only if no accepted form sets it on another |
| ConsentRuns.RegisterListIsGlobal | app/services/agreements.py:52-87 | Then everything registration asks for is global |
| ConsentRuns.MigratedRegisterListIsGlobal | alembic/versions/20260718_user_agreements.py:112-143 | As it is over every such history from the migration on |
| ConsentRuns.OffGlobalFormIsAsked | app/services/agreements.py:52-87 | Once an update has flagged an agreement off the global scope, every later register list until the next update of its terms asks for it if and only if it was left enabled and is published, before or since |
| ConsentRuns.FormIsAskedIff | app/services/agreements.py:52-87 | From an accepted form until the terms are next changed, each list, for registering, signed-in and buying users alike, has the agreement if and only if the form asks for it there and left it enabled, and a version is published before or since |
| ConsentRuns.DisabledIsNotAsked | app/api/routers/admin_agreements.py:305-335 | A disabled agreement is in no list until an update of its terms |
| ConsentRuns.AgreementsStay | app/api/routers/admin_agreements.py:96-136 | Over every history an agreement is never taken away and keeps its slug |
| ConsentRuns.SlugsAlwaysDiffer | app/api/routers/admin_agreements.py:48-93 | Over every history no two agreements have the same slug |
| Consent.AgreementService.ValidateAcceptance | app/services/agreements.py:147-186 | Succeeds if and only if for every required agreement the last item that names it exists and has its current version, returning each once, all among the submitted items; otherwise names the first that is missing, exactly when no item names it, or outdated |
| ConsentRuns.AddedRowsWereSubmitted | app/services/agreements.py:147-256 | Whatever happens between a form and its verification, each row the verification adds is the new user's, under the slug of the agreement, for an agreement and a version among the items of that form, which was the current version then |
| Consent.AgreementService.Record | app/services/agreements.py:189-256 | Inserts the missing rows and counts them, or inserts nothing if and only if the key would be violated |
| Consent.AgreementService.HighestAccepted | app/services/agreements.py:259-290 | The accepted map holds each listed agreement's highest accepted version |
| Consent.AgreementService.PendingForUser | app/services/agreements.py:259-303 | Lists, in order, exactly the required agreements whose current version the user has not reached |
| Consent.AgreementService.Publish | app/api/routers/admin_agreements.py:178-302 | The endpoint is the modelled bump or patch, and refuses exactly a missing agreement and a patch of nothing |
| Settings.CodecInvertsIff | app/core/settings_store.py:141-174 | What is stored reads back, encrypted or not, if and only if it is a boolean, integer, string or JSON document; anything else as the string that shows it |
| Settings.ForeignRowsRead | app/core/settings_store.py:158-174 | What rows written by others read as: an encrypted text before a plain one, no text as None, a boolean by any spelling of `true` |
| SettingsRuns.ServedValueWasStoredRecently | app/core/settings_store.py:34-52 | After any interleaving of the steps of reads and stores, foreign writes and ticks a value served from the cache was stored less than one time to live before |
| SettingsRuns.StoredValueIsReadIff | app/core/settings_store.py:94-132 | A store forgets the key, commits later, and nobody else writes the key: a read then returns what was stored if and only if the live entry was not filled, after the key was forgotten, with another value queried before the commit |
| SettingsRuns.StoredValueIsRead | app/core/settings_store.py:94-174 | So without such a fill the service reads every stored value back, as far as its codec keeps it |
| SettingsRuns.StaleReadAfterStore | app/core/settings_store.py:94-132 | A run in which the old value is read after the store, to the end of the time to live |
| SettingsRuns.SecretsStayEncrypted | app/core/settings_store.py:94-156 | Over every run of overlapping stores no sensitive setting is ever in the table in plain, unless others write it so |
| Settings.LiveFirst | app/core/settings_store.py:54-92 | Reading keys one by one is taking the live ones first and then the missing ones |
| Settings.SettingsStore.GetOne | app/core/settings_store.py:34-52 | A live entry is served as it is; a failing query or a missing row gives the default and caches nothing; otherwise the decoded row, cached for 5 seconds, or an error |
| Settings.SettingsStore.SplitLive | app/core/settings_store.py:54-70 | The first pass separates live values from missing keys |
| Settings.SettingsStore.GetMany | app/core/settings_store.py:54-92 | One bulk query gives the values, cache and failures of one read per key |
| Settings.SettingsStore.SetValues | app/core/settings_store.py:94-132 | Writes each row, and forgets exactly the written keys |
| Rules.AcceptanceIgnoresOrderAndRepetition | app/services/egg_validator.py:299-324 | Rule lists with the same rules accept the same values, whatever their order and repetition |
| Rules.EmptyAcceptedIffNotRequired | app/services/egg_validator.py:299-324 | An empty value is accepted if and only if no rule is `required` |
| RuleMeaning.AcceptedIff | app/services/egg_validator.py:99-324 | For every list of rules as an author writes it: a text is accepted if and only if it is empty and `required` is not in the list, or it meets each rule of the list, said of the text for each of the 25 rules |
| RuleMeaning.RuleMeans | app/services/egg_validator.py:99-296 | One rule accepts a filled-in text if and only if the text meets it |
| RuleMeaning.InMeans | app/services/egg_validator.py:148-150 | `in:` with words accepts exactly the empty text and the words |
| RuleMeaning.NotInMeans | app/services/egg_validator.py:151-153 | `not_in:` with words accepts exactly the other texts and the empty one |
| RuleMeaning.NameIsReadLoosely | app/services/egg_validator.py:112-114 | Capitals and white space around a rule's name do not matter |
| Rules.BetweenIsMinAndMax | app/services/egg_validator.py:156-193 | In any rule list `between:a,b` may be replaced by `min:a` with `max:b`: the environment check accepts the same values, except exactly the filled-in ones that pass all other rules in a stated set of cases |
| Rules.DigitsIsDigitsBetween | app/services/egg_validator.py:260-274 | `digits:n` and `digits_between:n,n` give the same verdict on every value |
| Rules.SplitInvertsJoinedRules | app/services/egg_validator.py:53-57 | Splitting the join of trimmed, non-empty, pipe-free rules gives them back |
| TokenEditor.ReplaceTokenInYamlText | agent/config.py:75-139 | Rewrites the first `token` line at the child indent of an `agent:` block and nothing else, and gives up if and only if there is none |
| TokenEditor.FindTokenLine | agent/config.py:92-119 | The scan with its two variables stops at the first line where they allow it |
| TokenEditor.KeyLineIs | agent/config.py:92-119 | A key and its colon make a top-level line or, behind white space, a nested one at that depth |
| TokenEditor.BlankLineIs | agent/config.py:92-98 | Lines of white space alone are skipped |
| TokenEditor.RewriteLine | agent/config.py:119-136 | Indentation, comment and terminator of the line are kept as specified |
| TokenEditor.WrittenLineIs | agent/config.py:119-136 | A line of white space, key, value and perhaps a comment becomes as many spaces, `token: ` with the token between quotes, the comment two spaces on, and the same end |
| TokenEditor.TokenReadsBackIff | agent/config.py:119-136 | Read as a double-quoted scalar the new line gives the token back if and only if it has neither a quote nor a backslash |
| TokenEditor.OneLineChanges | agent/config.py:75-139 | When the line ends in LF, CR LF or nothing, the result splits into the same lines with that one replaced |
| TokenEditor.LfOrCrLfIsPlain | agent/config.py:75-139 | In an LF or CR LF text every line ends so |
| TokenEditor.TerminatorKeptIff | agent/config.py:119-136 | The terminator is kept if and only if it is LF, CR LF or none, or a rarer break behind a comment |
| TokenEditor.WritingTwiceIsWritingOnce | agent/config.py:75-139 | Writing one token and then another is writing the other: same line, same comment |
| TlsReload.ServedPairAlwaysMatches | agent/tls_reload.py:62-90 | Over any run of polls and separate replacements the served key fits the served certificate, and the recorded certificate is the served one |
| TlsReload.OnePollSyncs | agent/tls_reload.py:62-90 | Once the files load and stay put one poll makes served, recorded and file certificate agree, and further polls change nothing |
| TlsReload.RecordTruthfulIff | agent/tls_reload.py:57-90 | Over every run the record tells what is served if and only if it did at the start or some poll has reloaded |
| TlsReload.MissedReplacementStays | agent/tls_reload.py:57-90 | A certificate replaced between load and record is recorded and never served, whatever becomes of the key, until one with another fingerprint arrives |
| TlsReload.MismatchedRotationRecovers | agent/tls_reload.py:62-90 | A certificate without its key is refused with the old pair kept, and served once the key arrives |
| TlsReload.StatusIsTruthful | agent/tls_reload.py:93-112 | While the record is truthful the status says in sync if and only if clients get the file's certificate |
| TlsReload.NothingRecordedIsNotInSync | agent/tls_reload.py:93-112 | Where nothing could be recorded at startup the status never says in sync before a poll has loaded a certificate, not even while there is no file |
| TlsReload.Watcher.Watch | agent/tls_reload.py:62-90 | The loop, over the files as each iteration finds them, is the modelled run |
| AtomicWrite.Disk.AtomicWriteBytes | agent/utils/atomic.py:13-34 | At every step the file is the old one or the whole new one; success leaves the synced data under the mode, failure the old file, and the temporary is gone |
| AtomicWrite.PowerLossFindsOldOrNew | agent/utils/atomic.py:13-34 | A power loss at any of those steps, the directory being unsynced, finds the old file as it would have survived or all of the new data |
| AtomicWrite.SuccessMayBeLost | agent/utils/atomic.py:13-34 | After success it finds exactly one of these two, either being possible |

## Left out

- HTTP, TLS, MySQL and file transport: only their outcomes appear, as parameters.
- Races inside a call's steps up to its commit: a service's uncommitted work is a local of its method, and these steps are one event. What a restore's session still sees of the rows is modelled, as any value for rows it does not hold itself.
- Row ids and timestamps of the panel tables, `external_id`, and their unique keys.
- Exceptions other than the Wings error after a commit: the call stays pending, as in a crash.
- Variable values that are NULL, and non-string variable values in requests.
- The rows of other tables that refer to a deleted server, backups among them, and what their keys do; the tunnel and key hooks of a deletion, and its activity log.
- Retrying a deletion drops remote databases again if an earlier attempt was aborted; the state of the remote servers is not modelled, only which were contacted.
- PanelStore.PanelDb.EditEach: requires distinct names, as the keys of a request's dictionary are.
- `update_details`, `update_owner`, users, billing, plans, the tunnel manager and the admin list queries.
- Request validation by the schemas; the sorted list form of `restart_required_for` (a set here).
- The JSON, Fernet, HMAC, UTF-8 and regular-expression engines, the block cipher and SSL itself: their inverse laws, or a verdict per input, are assumed as fields of a host. The message authentication code is never checked on decryption by the service, as in the source; the panel's own reader, which checks it, is a reading of Laravel's documented format.
- Python's base64 decoder skips foreign characters; `int()` reads non-canonical decimals; lower-casing beyond ASCII: the model is canonical here.
- `ssl.SSLContext.load_cert_chain` is assumed to leave the context unchanged when it fails.
- The meaning of a rule is stated for texts, the only values the panel stores; numbers, booleans and missing values are modelled in `Rules` and covered by its algebra only.
- Rules whose arguments cannot be told apart (a pattern with a pipe in it, an empty or a surplus argument) have no author's form in `RuleMeaning`.
- `bootstrap_agent_token` around the editor: reading the YAML before and after, and the file mode.
- The request that restarts Wings, and what a proxy in front of it does with a port; a restart is an event of `WingsListener` only.
- The moment between a settings store's own selection and its forgetting of the keys: one event.
- Locale choice, public views and the evidence columns of acceptances; what an order does with its validated list is left out.
- Metrics, alerts, logs, dashboards and the frontend: they would add easy members only.
