# gsignond: a verified model of its stores, queues and caches

gsignond is a single-sign-on daemon.  This project models, in Dafny, the parts
of it that keep state over time, and proves what they promise:

- the identity record with its edit flags, selective copy, serialisation and
  comparison (`IdentityRecord`, `RecordFields`, `IdentityInfo`, `IdentityCompare`, `Ordering`,
  `Utils`);
- the metadata database: its tables with cascades, orphan triggers and
  foreign-key checks, and what storing, loading and removing an identity does to
  what can be read (`MetadataTables`, `MetadataStore`, `MetadataProduct`,
  `MetadataUpdate`, `MetadataDatabase`, `MetadataRoundTrip`, `MetadataRestore`,
  `MetadataRemoval`);
- the secret database with its type-tagged values, and the credentials layer
  that joins the two databases without a common transaction (`VariantTypes`,
  `SecretDatabase`, `CredentialsStates`, `CredentialsDatabase`);
- the two one-at-a-time schedulers, as state machines over whole runs and as the
  objects that take their steps (`DialogQueue` and `SignonuiProxy`,
  `SessionQueue` and `PluginProxy`, over `WaitingLine`);
- the identity with its sessions: merging of client input, the token cache
  written through to the database, mechanism negotiation (`IdentityStore`,
  `Identity`, `AuthSession`);
- the keep counter with its dispose timer, and the adapter that holds it
  (`DisposeTimer`, `Disposable`, `AuthServiceAdapter`).

Code that changes fields in place is a class here; its methods are proved
against functions on values (`State()`), and the laws are lemmas about those
functions.  A database statement is its effect on finite relations; whether a
BEGIN, a statement or a COMMIT succeeds is a parameter.  The outcome of a
transaction that is not committed is the state before it; after a failed COMMIT
that rollback is SQLite's own, the source issues none.

`dafny verify dfyconfig.toml` checks everything.

## What turned out to differ from the intent

The model follows the code, with two exceptions.  `PluginProxy.Cancel` removes the
session's first waiting entry, which is what the source is after: it passes the
queue's link where the entry is expected
(`src/daemon/plugins/gsignond-plugin-proxy.c:565-603`).  And where the source would
write past the slots of its answer, the model counts the writes instead
(`AuthSession.QueryAvailableMechanisms`).  Where a law fails for the code, there is a
lemma with an input that shows so, and one with the exact condition under which it
holds.

- `update_data` and `remove_data` of the secret database end the format string of
  their DELETE with a comma, so that it deletes by one number, which is an
  address (`src/common/db/gsignond-db-secret-database.c:347-351`, `:448-451`).
  The statement is a parameter: `AsWritten(operand)`, or `AsMeant` with both
  conditions.  Stored data comes back exactly if the statement is as meant, or the
  number is the identity's, or no old key is missing from the new data (inputs:
  `SecretDatabase.WrittenDeleteKeepsOldKeys`, `WrittenDeleteHitsOthers`); caches and
  stored tokens agree over a run exactly if each write is one that keeps them so
  (`IdentityStore.CachesStayCoherent`).
- The size check of `update_data` counts in 32 bits, so that an entry of 2^32 bytes
  passes it (`SecretDatabase.WideEntryPasses`); what it accepts is under the limit
  exactly if no entry is near 2^32 (`AcceptedIsSmallIff`).
- The orphan trigger of ACL does not look at other ACL rows
  (`src/daemon/db/gsignond-db-metadata-database.c:637-645`).  A context shared by
  two identities alone makes the delete of either's rows fail: an update then
  merges instead of replacing, and a removal is refused
  (`MetadataRestore.OldRowsStay`, `MetadataRemoval.RemovalBlocked`, the latter exact
  for every order in which SQLite may cascade; inputs: `SharedContextKeepsOldMethods`,
  `SharedContextBlocksRemoval`).
- ACL rows are written only with a methods map (`:1164-1166`), a caption beside a
  secret username is read as empty (`:163-164`), and loaded contexts are keyed by
  system context alone (`:1689-1697`); `MetadataRoundTrip.NewIdentityRoundTrip`
  says field by field when a record comes back (inputs: `CaptionIsLost`, `ListIsLost`,
  `ContextIsLost`).
- Realms edited to none keep the stored ones; methods edited alone are merged into
  the stored ones (`MetadataRestore.EmptiedRealmsStay`, `MethodsAloneAreMerged`).
- An update of an identity that is gone can still report success, and then leaves
  a row of credentials without an identity (`CredentialsStates.DeadUpdateIsSafeIff`,
  `StaleUpdateLeavesSecret`); one with its owner edited reports failure and leaves the
  names of its edited fields (`MetadataDatabase.DeadUpdateKeepsNamesIff`).
- A record's methods compare equal to another's, in one direction, when a method
  without mechanisms is renamed (`IdentityCompare.ComparesExactlyIff`,
  `EmptyMechanismListsConfuseCompare`).
- An intermediate response uses up the userdata that the plugin proxy keeps
  (`src/daemon/plugins/gsignond-plugin-proxy.c:164-166`); a callback runs exactly
  once if and only if there was none (`SessionQueue.ReadyCallbacks`,
  `IntermediateResponseUsesUserdataTwice`).
- The cancel of a waiting request is refused exactly while the dialog that is up
  was itself cancelled (`DialogQueue.NoCancelWhileAbandoned`, `WaitingRequestIsRefused`).
- Changing the timeout while the dispose timer runs leaves the old timer armed
  (`DisposeTimer.SetTimeoutKeepsSoundIff`, `SecondTimeoutLeavesFirstArmed`).
- Sign-out clears the stored tokens, not the cached ones
  (`IdentityStore.SignOutIsCoherentIff`, `SignOutLeavesCache`).

## Model

| member | source | states |
|---|---|---|
| `Ordering.CtxLeqIsTotalOrder` | src/common/gsignond-security-context.c:284-302 | the comparison of security contexts is a total order |
| `Ordering.StrLeqIsTotalOrder` | src/common/gsignond-utils.c:267-275 | the string comparison behind every sorted sequence is a total order |
| `Ordering.FirstDifferenceDecides` | src/common/gsignond-utils.c:267-275 | the first differing character decides, and a string comes before its extensions |
| `Ordering.SystemContextDecides` | src/common/gsignond-security-context.c:284-302 | contexts are ordered by the system context, and by the application context only if that is the same |
| `Ordering.SortIsSortedPermutation` | src/common/gsignond-utils.c:369-386 | inserting items one by one in order gives a sorted permutation of them |
| `Ordering.SortEqualIffPermutation` | src/common/gsignond-identity-info.c:1174-1274 | two sequences are equal after sorting exactly when one is a permutation of the other |
| `Utils.ToSequence` | src/common/gsignond-utils.c:313-386 | a string array becomes the sorted sequence with the same elements |
| `Utils.TruncatedHostIsDomain` | src/common/gsignond-utils.c:423-447 | splitting both names on dots, dropping the host's extra labels and joining gives the domain exactly when the host is it or ends with a dot and it |
| `Utils.EndsWithIff` | src/common/gsignond-utils.c:423-447 | one string ends with another exactly if something before it makes it the whole |
| `Utils.IsHostInDomain` | src/common/gsignond-utils.c:423-447 | true exactly when the host is the domain or ends with a dot and the domain; always for an empty domain |
| `IdentityRecord.StepIsFlagged` | src/common/gsignond-identity-info.c:163-251 | every setter and copy leaves an edit flag on every field it alters, and clears none |
| `IdentityRecord.ClearFlagMeansUnchanged` | src/common/gsignond-identity-info.c:163-251 | over any run of setters, copies and resets, a field whose edit flag is clear reads as at the last reset |
| `IdentityRecord.LastResetCounts` | src/common/gsignond-identity-info.c:175-185 | the baseline of that law is the record before the last reset of the flags |
| `RecordFields.SettersSet` | src/common/gsignond-identity-info.c:450-1162 | every setter sets what the getter of its field shows, and of no other field; an empty access control list sets nothing |
| `RecordFields.OwnerRemoved` | src/common/gsignond-identity-info.c:253-259 | removing the owner removes just that, and flags nothing |
| `RecordFields.SettersFlagChanges` | src/common/gsignond-identity-info.c:163-185 | a setter adds the flag of a field exactly if it changed that field |
| `IdentityRecord.RemoveOwnerKeepsCleanIff` | src/common/gsignond-identity-info.c:253-259 | remove_owner keeps that law exactly if the owner was flagged or absent |
| `IdentityRecord.UnsetKeepsCleanIff` | src/common/gsignond-identity-info.c:187-197 | unset_edit_flags keeps it exactly if no field it unflags has changed |
| `IdentityRecord.DictionaryNeverHoldsSecrets` | src/common/gsignond-identity-info.c:283-354 | no run puts the username or the secret into the dictionary |
| `IdentityRecord.SerialisedRecordHidesSecrets` | src/common/gsignond-identity-info.c:1284-1310 | a serialised record never holds the secret, and holds the username exactly if that is not secret |
| `IdentityRecord.SerialisationRoundTrip` | src/common/gsignond-identity-info.c:283-354 | parsing a serialised record gives back every field but the secret; the username exactly if it is shown and not NULL, or hidden and NULL |
| `IdentityInfo.IdentityInfo.SelectiveCopy` | src/common/gsignond-identity-info.c:199-251 | the loop with a shifted flag over the key table copies exactly the selected fields that are present, and returns their flags |
| `IdentityInfo.TableIsAligned` | src/common/gsignond-identity-info.c:199-251 | in every one of the eleven turns the shifted flag is the one of the table's key |
| `IdentityInfo.AllRows` | src/common/gsignond-identity-info-internal.h:55-77 | after the eleven turns exactly the selected keys were copied, and exactly their flags are left |
| `IdentityRecord.SelectiveCopyIsFlagged` | src/common/gsignond-identity-info.c:199-251 | a selective copy alters only fields it flags |
| `IdentityStore.SelectiveCopyCopies` | src/common/gsignond-identity-info.c:199-251 | each field reads as in the source if it was selected and is there, and as before otherwise; exactly those are flagged; other entries stay |
| `IdentityInfo.TableIsComplete` | src/common/gsignond-identity-info-internal.h:55-77 | the key table has a row for every dictionary key that a flag names |
| `IdentityInfo.IdentityInfo.constructor` | src/common/gsignond-identity-info.c:269-273 | a new record has the new-identity id and no edit flag |
| `IdentityInfo.IdentityInfo.FromVariant` | src/common/gsignond-identity-info.c:283-354 | the two secret strings taken from the dictionary if they are strings, every other entry kept, and a flag for exactly the keys present |
| `IdentityInfo.IdentityInfo.SetEditFlags` | src/common/gsignond-identity-info.c:163-173 | adds flags |
| `IdentityInfo.IdentityInfo.ResetEditFlags` | src/common/gsignond-identity-info.c:175-185 | replaces the flags |
| `IdentityInfo.IdentityInfo.SetId` | src/common/gsignond-identity-info.c:450-466 | sets the id, flagged only if it changes |
| `IdentityInfo.IdentityInfo.SetIdentityType` | src/common/gsignond-identity-info.c:1147-1162 | sets the type, flagged only if it changes |
| `IdentityInfo.IdentityInfo.SetStoreSecret` | src/common/gsignond-identity-info.c:669-684 | sets whether the password may be stored, flagged only if it changes |
| `IdentityInfo.IdentityInfo.SetUsernameSecret` | src/common/gsignond-identity-info.c:575-593 | sets whether the username is secret, flagged only if it changes |
| `IdentityInfo.IdentityInfo.SetValidated` | src/common/gsignond-identity-info.c:1102-1117 | sets the validated flag, flagged only if it changes |
| `IdentityInfo.IdentityInfo.SetUsername` | src/common/gsignond-identity-info.c:530-545 | sets the username outside the dictionary, flagged only if it changes |
| `IdentityInfo.IdentityInfo.SetSecret` | src/common/gsignond-identity-info.c:621-639 | sets the password outside the dictionary, flagged only if it changes |
| `IdentityInfo.IdentityInfo.SetRealms` | src/common/gsignond-identity-info.c:768-791 | sets the realms, flagged only if they change |
| `IdentityInfo.IdentityInfo.SetMethods` | src/common/gsignond-identity-info.c:844-888 | sets the methods, flagged only if they change |
| `IdentityInfo.IdentityInfo.RemoveMethod` | src/common/gsignond-identity-info.c:945-964 | takes one method out, if it is there |
| `IdentityInfo.IdentityInfo.SetOwner` | src/common/gsignond-identity-info.c:1052-1072 | sets the owner, flagged only if it changes |
| `IdentityInfo.IdentityInfo.RemoveOwner` | src/common/gsignond-identity-info.c:253-259 | takes the owner out and leaves the flags alone |
| `IdentityInfo.IdentityInfo.SetCaption` | src/common/gsignond-identity-info.c:714-737 | sets or removes the caption, flagged only if it changes |
| `IdentityInfo.IdentityInfo.SetAccessControlList` | src/common/gsignond-identity-info.c:995-1020 | an empty list never replaces the stored one |
| `IdentityInfo.IdentityInfo.ToVariant` | src/common/gsignond-identity-info.c:1284-1310 | the dictionary as it is if the username is secret, and with the username, NULL as empty, otherwise |
| `IdentityCompare.MatchIsCheckEitherWay` | src/common/gsignond-security-context.c:304-363 | match is check in either direction; without wildcards it is equality |
| `IdentityCompare.CheckMeaning` | src/common/gsignond-security-context.c:349-363 | a reference covers everything, one system context, or without wildcards only itself |
| `IdentityCompare.OwnersMatchIff` | src/common/gsignond-identity-info.c:1174-1274 | owners match if both are absent, or one covers the other |
| `IdentityCompare.SeqCmp` | src/common/gsignond-identity-info.c:44-84 | two sequences are equal item by item, and no sequence is an empty one |
| `IdentityCompare.ContextListCmp` | src/common/gsignond-identity-info.c:86-117 | same length, and of each pair of contexts one covers the other |
| `IdentityCompare.MethodsCmp` | src/common/gsignond-identity-info.c:119-151 | same number of methods, and each of the first's has the same list, an absent one counting as empty |
| `IdentityCompare.Compare` | src/common/gsignond-identity-info.c:1174-1274 | the whole comparison is the conjunction of its fields' comparisons |
| `IdentityCompare.RealmsCompareAsMultisets` | src/common/gsignond-identity-info.c:1174-1274 | realms compare equal exactly if one list is a permutation of the other |
| `IdentityCompare.ListsCompareAsMultisets` | src/common/gsignond-identity-info.c:86-117 | wildcard-free access control lists match exactly if one is a permutation of the other |
| `IdentityCompare.MethodsCompareAsMaps` | src/common/gsignond-identity-info.c:119-151 | if every method has a mechanism, maps compare equal exactly if they are equal up to the order of mechanisms |
| `IdentityCompare.ComparesExactlyIff` | src/common/gsignond-identity-info.c:119-151 | a map compares equal to just the maps it should if and only if each of its methods has a mechanism |
| `IdentityCompare.EmptyMechanismListsConfuseCompare` | src/common/gsignond-identity-info.c:119-151 | two different maps that compare equal in one direction only |
| `IdentityCompare.CompareMeansEqualUpToOrder` | src/common/gsignond-identity-info.c:1174-1274 | under those conditions records compare equal exactly if all compared fields are equal up to the order of lists |
| `MetadataStore.IdentityRowEffect` | src/daemon/db/gsignond-db-metadata-database.c:235-285 | writing the IDENTITY row changes that identity's row and nothing else that can be read |
| `MetadataStore.RealmsEffect` | src/daemon/db/gsignond-db-metadata-database.c:288-322 | writing realms replaces that identity's and no other's |
| `MetadataStore.AclDeleteOutcome` | src/daemon/db/gsignond-db-metadata-database.c:637-645 | the delete of an identity's ACL rows is undone exactly if another's row names one of its contexts that no reference and no owner names |
| `MetadataStore.OwnerDeleteOutcome` | src/daemon/db/gsignond-db-metadata-database.c:657-665 | the same for the delete of its OWNER rows |
| `MetadataStore.AclDeleteAbortsIff` | src/daemon/db/gsignond-db-metadata-database.c:637-645 | that condition in terms of the rows of the three tables |
| `MetadataStore.OwnerDeleteAbortsIff` | src/daemon/db/gsignond-db-metadata-database.c:657-665 | the same for OWNER |
| `MetadataStore.RemoveAclEffect` | src/daemon/db/gsignond-db-metadata-database.c:373-397 | if it is not undone, the identity's contexts and methods are gone and every other identity reads the same |
| `MetadataStore.RemoveOwnersEffect` | src/daemon/db/gsignond-db-metadata-database.c:399-422 | if the delete of OWNER rows is not undone, the identity has no owner and every other identity reads the same |
| `MetadataStore.OwnerRowEffect` | src/daemon/db/gsignond-db-metadata-database.c:399-422 | the new OWNER row adds the owner exactly if its context has a row |
| `MetadataProduct.ProductContexts` | src/daemon/db/gsignond-db-metadata-database.c:1164-1241 | the contexts in the product's rows are those of the list |
| `MetadataProduct.ProductRowIff` | src/daemon/db/gsignond-db-metadata-database.c:1164-1241 | the product row by row: every method with every context, once for each mechanism, or once without; without methods each context alone |
| `MetadataProduct.MethodsAfterProduct` | src/daemon/db/gsignond-db-metadata-database.c:1164-1241 | the methods and mechanisms read from the product's rows are those written, methods without mechanisms included, merged with what was there |
| `MetadataProduct.ProductEffect` | src/daemon/db/gsignond-db-metadata-database.c:1164-1241 | the inserts add just that to the identity, and every other identity reads the same |
| `MetadataUpdate.StepsMeanStored` | src/daemon/db/gsignond-db-metadata-database.c:1050-1255 | the statements of an update in order have one meaning: the updated view of the identity, the old view of every other, and exactly which names there are after it |
| `MetadataUpdate.NamesMeanStored` | src/daemon/db/gsignond-db-metadata-database.c:1102-1163 | which contexts, methods and mechanisms have rows after an update, from the tables before it |
| `MetadataUpdate.OwnerDeleteKeys` | src/daemon/db/gsignond-db-metadata-database.c:657-665 | which contexts the delete of OWNER rows takes out |
| `MetadataUpdate.AclDeleteKeys` | src/daemon/db/gsignond-db-metadata-database.c:637-645 | which contexts the delete of ACL rows takes out |
| `MetadataDatabase.MetadataDatabase.StartTransaction` | src/common/db/gsignond-db-sql-database.c:788-812 | remembers the tables; fails inside a transaction |
| `MetadataDatabase.MetadataDatabase.RollbackTransaction` | src/common/db/gsignond-db-sql-database.c:852-869 | brings the remembered tables back |
| `MetadataDatabase.MetadataDatabase.CommitTransaction` | src/common/db/gsignond-db-sql-database.c:823-841 | keeps the tables; if COMMIT fails, the remembered ones, by SQLite's own rollback |
| `MetadataDatabase.MetadataDatabase.UpdateCredentials` | src/daemon/db/gsignond-db-metadata-database.c:235-285 | gives the id; inserts or updates the identity's row, every column from its getter, and changes nothing else; an unknown id writes nothing |
| `MetadataDatabase.MetadataDatabase.InsertMethods` | src/daemon/db/gsignond-db-metadata-database.c:324-370 | exactly the methods of the map and their mechanisms get names, and no name is lost |
| `MetadataDatabase.MetadataDatabase.InsertContexts` | src/daemon/db/gsignond-db-metadata-database.c:372-397 | exactly the contexts of the list get rows, and none is lost |
| `MetadataDatabase.MetadataDatabase.InsertMechanisms` | src/daemon/db/gsignond-db-metadata-database.c:355-366 | exactly the mechanisms of one method get names |
| `MetadataDatabase.MetadataDatabase.InsertAclRow` | src/daemon/db/gsignond-db-metadata-database.c:1174-1186 | the row, or, without its identity, the end of the transaction and of its changes |
| `MetadataDatabase.MetadataDatabase.InsertOwner` | src/daemon/db/gsignond-db-metadata-database.c:399-422 | the same for the OWNER row |
| `MetadataDatabase.MetadataDatabase.InsertRealm` | src/daemon/db/gsignond-db-metadata-database.c:288-322 | the same for a realm, with the error reported |
| `MetadataDatabase.MetadataDatabase.WriteOwner` | src/daemon/db/gsignond-db-metadata-database.c:1087-1141 | the owner part of an update, with and without the identity |
| `MetadataDatabase.MetadataDatabase.StoreMethodRows` | src/daemon/db/gsignond-db-metadata-database.c:1164-1224 | the loop over the methods inserts the product's rows |
| `MetadataDatabase.MetadataDatabase.StoreContextRows` | src/daemon/db/gsignond-db-metadata-database.c:1172-1201 | the loop over the contexts inserts the rows of one method |
| `MetadataDatabase.MetadataDatabase.StoreMechanismRows` | src/daemon/db/gsignond-db-metadata-database.c:1178-1200 | the loop over the mechanisms inserts one row each, or one without |
| `MetadataDatabase.MetadataDatabase.StoreBareRows` | src/daemon/db/gsignond-db-metadata-database.c:1226-1240 | an empty methods map gives a row for each context |
| `MetadataDatabase.MetadataDatabase.UpdateIdentity` | src/daemon/db/gsignond-db-metadata-database.c:1050-1255 | the id it returns, for a new or stored identity and for one that is gone, in terms of the record and of BEGIN and COMMIT; what a successful update of the first stores, and that a failed one changes nothing; what one of the second leaves of names |
| `MetadataDatabase.DeadUpdateKeepsNamesIff` | src/daemon/db/gsignond-db-metadata-database.c:1050-1255 | the tables after an update of an identity that is gone: exactly when the names of its edited fields stay, also where it reports failure, and which they are |
| `MetadataDatabase.MetadataDatabase.StoreRows` | src/daemon/db/gsignond-db-metadata-database.c:1164-1241 | the nested loops insert exactly the product; without the identity the first insert rolls everything back |
| `MetadataDatabase.MetadataDatabase.UpdateRealms` | src/daemon/db/gsignond-db-metadata-database.c:288-322 | writes the realms, and reports failure exactly if there are some and the identity does not exist |
| `MetadataDatabase.MetadataDatabase.GetAccessControlList` | src/daemon/db/gsignond-db-metadata-database.c:1665-1699 | the list has one stored context for each stored system context |
| `MetadataDatabase.MetadataDatabase.StringTuples` | src/common/db/gsignond-db-sql-database.c:561-588 | rows become one entry for each system context, holding one of its application contexts |
| `MetadataDatabase.MetadataDatabase.GetOwnerContext` | src/daemon/db/gsignond-db-metadata-database.c:1713-1746 | a stored owner, or none if there is none |
| `MetadataDatabase.MetadataDatabase.ReadIdentity` | src/daemon/db/gsignond-db-metadata-database.c:148-180 | the record that one IDENTITY row fills |
| `MetadataDatabase.MetadataDatabase.ListToSequence` | src/daemon/db/gsignond-db-metadata-database.c:135-146 | the texts of a query as a sorted sequence |
| `MetadataDatabase.MetadataDatabase.ReadMethods` | src/daemon/db/gsignond-db-metadata-database.c:1329-1357 | the methods map of the identity's rows, with sorted mechanisms |
| `MetadataDatabase.MetadataDatabase.GetIdentity` | src/daemon/db/gsignond-db-metadata-database.c:1268-1361 | NULL exactly if there is no such identity; otherwise the record filled from its view |
| `MetadataDatabase.MetadataDatabase.RemoveIdentity` | src/daemon/db/gsignond-db-metadata-database.c:1462-1481 | succeeds exactly if the cascade leaves every context reference intact; otherwise changes nothing |
| `MetadataDatabase.CascadeRemoves` | src/daemon/db/gsignond-db-metadata-database.c:603-635 | a cascade over any order of the child tables removes the identity's rows in them, and no row of another |
| `MetadataDatabase.RemovalEffect` | src/daemon/db/gsignond-db-metadata-database.c:1462-1481 | after a removal nothing is left of the identity, referential integrity holds, and every other identity reads the same |
| `MetadataDatabase.MetadataDatabase.Clear` | src/daemon/db/gsignond-db-metadata-database.c:877-896 | no row is left in any table, and every id counter stays |
| `MetadataDatabase.MetadataDatabase.InsertMethod` | src/daemon/db/gsignond-db-metadata-database.c:932-957 | inserts a new name, fails for an old one, and changes no identity |
| `MetadataDatabase.MetadataDatabase.GetMethodId` | src/daemon/db/gsignond-db-metadata-database.c:969-991 | 0 exactly if there is no such name, and otherwise an id that no other name has |
| `MetadataRoundTrip.AclListIsPermutation` | src/daemon/db/gsignond-db-metadata-database.c:1680-1698 | the list read is the list written exactly if no system context occurs twice in it |
| `MetadataRoundTrip.LoadedFields` | src/daemon/db/gsignond-db-metadata-database.c:1268-1361 | each field of the record that a load fills, from what the tables show |
| `MetadataRoundTrip.LoadedMethodsAreTheSame` | src/daemon/db/gsignond-db-metadata-database.c:1329-1357 | the methods map read is the one written exactly if it has a method and no mechanism is repeated |
| `MetadataRoundTrip.NewIdentityView` | src/daemon/db/gsignond-db-metadata-database.c:1050-1255 | what the tables show of a new identity after its first store |
| `MetadataRoundTrip.NewIdentityRoundTrip` | src/daemon/db/gsignond-db-metadata-database.c:1268-1361 | store then load of a new identity: which fields come back always, and for each of the others exactly when |
| `MetadataRoundTrip.NewIdentityComparesEqual` | src/daemon/db/gsignond-db-metadata-database.c:1268-1361 | under the documented conditions the loaded record compares equal to the stored one, with its id and without the password |
| `MetadataRoundTrip.CaptionIsLost` | src/daemon/db/gsignond-db-metadata-database.c:163-164 | an accepted record whose caption, beside a secret username, does not come back |
| `MetadataRoundTrip.ListIsLost` | src/daemon/db/gsignond-db-metadata-database.c:1164-1166 | one whose access control list, without methods, does not |
| `MetadataRoundTrip.ContextIsLost` | src/daemon/db/gsignond-db-metadata-database.c:1689-1697 | one whose list, with one system context twice, does not |
| `MetadataRestore.ContextsReplacedIff` | src/daemon/db/gsignond-db-metadata-database.c:1142-1241 | the stored contexts become those of the edited list exactly if there is a methods map and the old rows go or are all in the list |
| `MetadataRestore.MethodsReplacedIff` | src/daemon/db/gsignond-db-metadata-database.c:1142-1241 | the stored methods become the edited map exactly if the list was edited too and the old rows go, or nothing was taken out |
| `MetadataRestore.BothReplaced` | src/daemon/db/gsignond-db-metadata-database.c:1142-1241 | with both edited and no shared context in the way, an update replaces exactly the identity's own rows |
| `MetadataRestore.UnsharedContextsGo` | src/daemon/db/gsignond-db-metadata-database.c:637-645 | an identity with no stored context that another has too gets its old rows replaced |
| `MetadataRestore.RealmsReplacedIff` | src/daemon/db/gsignond-db-metadata-database.c:288-322 | edited realms replace the stored ones exactly if some are left or none were stored |
| `MetadataRestore.EachFieldStored` | src/daemon/db/gsignond-db-metadata-database.c:1050-1141 | what an update stores of realms and row, and that owners, contexts and methods not edited stay |
| `MetadataRestore.MethodsStored` | src/daemon/db/gsignond-db-metadata-database.c:1102-1241 | each method and mechanism after an update: the old ones unless their rows went, and the record's that have names if list or methods were edited |
| `MetadataRestore.ContextsStored` | src/daemon/db/gsignond-db-metadata-database.c:1102-1241 | the same for each context |
| `MetadataRestore.OwnersStored` | src/daemon/db/gsignond-db-metadata-database.c:1102-1141 | and for each owner: an old one only if the delete was undone, the new one if its context has a row |
| `MetadataRestore.EmptiedRealmsStay` | src/daemon/db/gsignond-db-metadata-database.c:299-321 | an accepted record without realms that leaves the stored realm |
| `MetadataRestore.MethodsAloneAreMerged` | src/daemon/db/gsignond-db-metadata-database.c:1142-1166 | an accepted record with other methods and an unedited list that leaves the old method, with nothing shared |
| `MetadataRestore.OwnerReplacedIff` | src/daemon/db/gsignond-db-metadata-database.c:1109-1132 | an edited owner replaces the stored ones exactly if its context has a row and the old rows go or name it too |
| `MetadataRestore.ContextsWithoutEdit` | src/daemon/db/gsignond-db-metadata-database.c:1164-1241 | with the list not edited no stored context goes, and only contexts that had rows, or the new owner, can join |
| `MetadataRestore.SharedContextKeepsOldMethods` | src/daemon/db/gsignond-db-metadata-database.c:637-645 | a record that the update accepts, of an identity whose replaced method stays because another shares its context |
| `MetadataRestore.NewRecordsAreClean` | src/common/gsignond-identity-info.c:163-251 | a record built by setters and copies from a new one has unset fields wherever no flag is set |
| `MetadataRestore.SkippedUpdateLosesNothing` | src/daemon/db/gsignond-db-metadata-database.c:1072-1078 | with no edit flag set, every field and the row that would be written are as when the record was last stored |
| `MetadataRemoval.UnsharedIdentityIsRemoved` | src/daemon/db/gsignond-db-metadata-database.c:1462-1481 | an identity that shares no context within a table can be removed, whatever the order of the cascade |
| `MetadataRemoval.RemovalOutcome` | src/daemon/db/gsignond-db-metadata-database.c:637-665 | for every order of the cascade, the exact condition under which a removal is refused |
| `MetadataRemoval.DroppedIff` | src/daemon/db/gsignond-db-metadata-database.c:637-665 | which contexts the triggers delete over a whole cascade, from the rows before it and the order |
| `MetadataRemoval.SharedContextBlocksRemoval` | src/daemon/db/gsignond-db-metadata-database.c:637-645 | an identity, with an owner of its own, that no order of the cascade can remove |
| `VariantTypes.ScanSkipsType` | src/common/db/gsignond-db-secret-database.c:78-104 | the scan for the end of a type string finds exactly the end, whatever follows |
| `VariantTypes.DecodeEncode` | src/common/db/gsignond-db-secret-database.c:78-104 | a stored value is the type string, a NUL and the bytes, and decodes to itself |
| `SecretDatabase.LoadAfterUpdate` | src/common/db/gsignond-db-secret-database.c:322-428 | stored data is what is loaded exactly if the DELETE is as meant, or its number is the identity's, or every old key is in the new data |
| `SecretDatabase.OthersAfterUpdate` | src/common/db/gsignond-db-secret-database.c:347-351 | all other pairs load as before exactly if the DELETE finds no row of theirs, which one as meant never does |
| `SecretDatabase.MeantHitsNoOthers` | src/common/db/gsignond-db-secret-database.c:346-351 | the statement as meant never finds another pair's rows |
| `SecretDatabase.WrittenDeleteKeepsOldKeys` | src/common/db/gsignond-db-secret-database.c:347-351 | data that comes back with an old key, for every number but the identity's |
| `SecretDatabase.WrittenDeleteHitsOthers` | src/common/db/gsignond-db-secret-database.c:347-351 | an update that deletes another identity's data |
| `SecretDatabase.RemovedData` | src/common/db/gsignond-db-secret-database.c:430-458 | removing one method's data: gone, and framed, under the same exact conditions |
| `SecretDatabase.RemovedForAllMethods` | src/common/db/gsignond-db-secret-database.c:430-459 | removing the data of method 0 takes all of the identity's and no other's, whatever number the DELETE has |
| `SecretDatabase.RemovedIdentity` | src/common/db/gsignond-db-secret-database.c:266-284 | removing an identity's rows empties all its data and no other's |
| `SecretDatabase.SecretDatabase.CheckSize` | src/common/db/gsignond-db-secret-database.c:361-373 | accepts exactly if the 32-bit counter stays under 4096 at every entry, in the order walked; then the total is under 4096 exactly if no entry is near 2^32; what it rejects is too large |
| `SecretDatabase.AcceptsIff` | src/common/db/gsignond-db-secret-database.c:361-373 | without entries near 2^32 the order does not matter, and the total decides |
| `SecretDatabase.TotalIsStoredSize` | src/common/db/gsignond-db-secret-database.c:358-372 | the size that counts is that of the keys and of the stored bytes |
| `SecretDatabase.AcceptedIsSmallIff` | src/common/db/gsignond-db-secret-database.c:361-373 | what the check rejects is over the limit of 4096 bytes; what it accepts is under it exactly if no entry is near 2^32 |
| `SecretDatabase.WideEntryPasses` | src/common/db/gsignond-db-secret-database.c:361-373 | an entry of 2^32 bytes that the check accepts |
| `SecretDatabase.SecretDatabase.UpdateData` | src/common/db/gsignond-db-secret-database.c:322-428 | exactly when it succeeds, and the new table; the limit then holds exactly if no entry is near 2^32; a failed update leaves the table as it was although the delete came first |
| `SecretDatabase.SecretDatabase.LoadData` | src/common/db/gsignond-db-secret-database.c:286-320 | the dictionary of the pair's rows, or NULL without rows |
| `SecretDatabase.SecretDatabase.TransactionExec` | src/common/db/gsignond-db-sql-database.c:882-905 | all of the statements or none |
| `SecretDatabase.SecretDatabase.StartTransaction` | src/common/db/gsignond-db-sql-database.c:788-812 | remembers the tables |
| `SecretDatabase.SecretDatabase.RollbackTransaction` | src/common/db/gsignond-db-sql-database.c:852-869 | brings them back |
| `SecretDatabase.SecretDatabase.CommitTransaction` | src/common/db/gsignond-db-sql-database.c:823-841 | keeps the new tables; if COMMIT fails, the old ones, by SQLite's own rollback |
| `SecretDatabase.PairsReadBack` | src/common/db/gsignond-db-secret-database.c:204-264 | a stored pair is what is loaded, NULL as empty text; storing one touches no other pair and no data, and removing takes the data along |
| `SecretDatabase.SecretDatabase.UpdateCredentials` | src/common/db/gsignond-db-secret-database.c:237-264 | replaces the pair, NULL as empty text, and leaves the data rows |
| `SecretDatabase.SecretDatabase.RemoveCredentials` | src/common/db/gsignond-db-secret-database.c:266-284 | removes the pair and all data of the identity |
| `SecretDatabase.SecretDatabase.InsertRows` | src/common/db/gsignond-db-secret-database.c:375-425 | inserts every entry, or rolls back at the first that fails |
| `SecretDatabase.SecretDatabase.RemoveData` | src/common/db/gsignond-db-secret-database.c:430-458 | removes one method's rows by the statement, or all of the identity's for method 0 |
| `SecretDatabase.SecretDatabase.Clear` | src/common/db/gsignond-db-secret-database.c:189-202 | empties both tables |
| `CredentialsStates.CredentialsRoundTrip` | src/daemon/db/gsignond-db-credentials-database.c:284-410 | for every combination of the two flags: exactly when store and load give back the username, and the password if it may be stored |
| `CredentialsStates.LoadedSecrets` | src/daemon/db/gsignond-db-credentials-database.c:284-326 | what a load, asked for the secrets or not, shows of username and password, with no flag set and every other field the metadata's |
| `CredentialsStates.NewIdentityComesBackWhole` | src/daemon/db/gsignond-db-credentials-database.c:284-410 | both databases together: a new identity, stored and loaded with its secrets, compares equal to what was stored, the password included if it may be stored |
| `CredentialsStates.CheckAfterStore` | src/daemon/db/gsignond-db-credentials-database.c:453-494 | with a stored password, exactly the stored username and password are accepted |
| `CredentialsStates.UpdateKeepsSafe` | src/daemon/db/gsignond-db-credentials-database.c:364-410 | an update of a new or stored identity keeps every secret row with an identity, between the databases and after |
| `CredentialsStates.HalfRemovalIsSafe` | src/daemon/db/gsignond-db-credentials-database.c:421-439 | with the secrets removed and the metadata not yet, every secret row has its identity |
| `CredentialsStates.DeadUpdateIsSafeIff` | src/daemon/db/gsignond-db-credentials-database.c:364-410 | an update of one that is gone does so exactly if no secret is written |
| `CredentialsStates.StaleUpdateLeavesSecret` | src/daemon/db/gsignond-db-credentials-database.c:364-410 | an accepted update of a removed identity that leaves a password without one |
| `CredentialsStates.FreshIdentityHasNoSecrets` | src/daemon/db/gsignond-db-metadata-database.c:578-584 | the next id has no credentials and no data |
| `CredentialsStates.RemovalIsCompleteAndFramed` | src/daemon/db/gsignond-db-credentials-database.c:421-439 | nothing of a removed identity is left in either database; every other identity, with its secrets and data, is unchanged |
| `CredentialsStates.DataAfterUpdate` | src/daemon/db/gsignond-db-credentials-database.c:550-583 | the round trip of data by method name, with a new name interned |
| `CredentialsStates.NamingKeepsData` | src/daemon/db/gsignond-db-credentials-database.c:570-580 | a new method name changes nothing that can be loaded |
| `CredentialsStates.OthersAfterDataUpdate` | src/daemon/db/gsignond-db-credentials-database.c:550-583 | the frame of that, over names and identities |
| `CredentialsDatabase.CredentialsDatabase.StoreCredentials` | src/daemon/db/gsignond-db-credentials-database.c:380-408 | the row that is written: the username only if it is secret, the password only if it may be stored, and none without either |
| `CredentialsDatabase.CredentialsDatabase.InternMethod` | src/daemon/db/gsignond-db-credentials-database.c:568-580 | the id of a method name, inserted if it is new |
| `CredentialsDatabase.CredentialsDatabase.UpdateIdentity` | src/daemon/db/gsignond-db-credentials-database.c:364-410 | the id it returns, the new state of both databases and of the record's flags; safe between the two writes, and after them exactly unless a secret is written for an identity that is gone |
| `CredentialsDatabase.CredentialsDatabase.LoadIdentity` | src/daemon/db/gsignond-db-credentials-database.c:284-326 | the record of the metadata with the secrets its flags call for, and no edit flag |
| `CredentialsDatabase.CredentialsDatabase.RemoveIdentity` | src/daemon/db/gsignond-db-credentials-database.c:421-439 | when it succeeds; then complete and framed; safe at every point, with the secrets gone first |
| `CredentialsDatabase.CredentialsDatabase.CheckSecret` | src/daemon/db/gsignond-db-credentials-database.c:453-494 | true exactly if the storage is open and the password is the stored one, with the username the secret one, or the visible one of a pair without a secret one |
| `CredentialsDatabase.CredentialsDatabase.UpdateData` | src/daemon/db/gsignond-db-credentials-database.c:550-583 | when it succeeds, and the new state of both databases; a failure changes at most the method names |
| `CredentialsDatabase.CredentialsDatabase.LoadData` | src/daemon/db/gsignond-db-credentials-database.c:508-535 | the data stored for the identity under the method's name |
| `CredentialsDatabase.CredentialsDatabase.RemoveData` | src/daemon/db/gsignond-db-credentials-database.c:597-625 | removes one method's data, or all of the identity's without a name |
| `CredentialsDatabase.CredentialsDatabase.Clear` | src/daemon/db/gsignond-db-credentials-database.c:260-269 | secrets first, then metadata; safe in between |
| `DialogQueue.ProcessNextSettles` | src/daemon/gsignond-signonui-proxy.c:177-266 | the mutual recursion over failing requests ends, idle or with one dialog outstanding |
| `DialogQueue.TurnsTaken` | src/daemon/gsignond-signonui-proxy.c:219-266 | how one turn after the other goes: the leading requests that cannot be shown fail in order, each with its reason; the next is shown, or none is left, the proxy is idle and a new timer armed |
| `DialogQueue.FirstRequest` | src/daemon/gsignond-signonui-proxy.c:268-283 | what an idle proxy does with a request: shows it, or fails it with the reason and is idle with a new timer |
| `DialogQueue.StepKeepsInv` | src/daemon/gsignond-signonui-proxy.c:177-391 | every query, reply, cancel and timer keeps the invariant |
| `DialogQueue.RunKeepsInv` | src/daemon/gsignond-signonui-proxy.c:177-391 | and so does every run |
| `DialogQueue.EveryRunIsOrderly` | src/daemon/gsignond-signonui-proxy.c:219-283 | after any run: idle exactly if no dialog is outstanding, and then nothing waits; the timer is armed only then, and once; turns come in the order of acceptance; every request is in one proper phase |
| `DialogQueue.RepliesAreCorrelated` | src/daemon/gsignond-signonui-proxy.c:177-204 | a callback gets the reply to its own request's dialog |
| `DialogQueue.DroppedMeansCancelled` | src/daemon/gsignond-signonui-proxy.c:177-195 | a reply is dropped only for a request cancelled while its dialog was up |
| `DialogQueue.NoCallbackTwice` | src/daemon/gsignond-signonui-proxy.c:177-195 | no callback runs twice, and none after a cancel at the UI |
| `DialogQueue.NoCancelWhileAbandoned` | src/daemon/gsignond-signonui-proxy.c:347-391 | in every state a run reaches, the cancel of a waiting request is refused exactly while the dialog that is up was itself cancelled |
| `DialogQueue.WaitingRequestIsRefused` | src/daemon/gsignond-signonui-proxy.c:354-355 | a run of three events in which the cancel of a waiting request is refused |
| `SignonuiProxy.SignonuiProxy.ProcessNextRequest` | src/daemon/gsignond-signonui-proxy.c:219-266 | shows the next request that can be shown, failing those before it; ends by the length of the queue |
| `SignonuiProxy.SignonuiProxy.QueryDialogCbInternal` | src/daemon/gsignond-signonui-proxy.c:177-195 | calls back the active request with the outcome, or drops the reply, then goes on to the next request |
| `SignonuiProxy.SignonuiProxy.QueryDialog` | src/daemon/gsignond-signonui-proxy.c:268-283 | puts the request at the end of the queue, and starts it if the proxy is idle |
| `SignonuiProxy.SignonuiProxy.QueryDialogCb` | src/daemon/gsignond-signonui-proxy.c:197-204 | calls back the active request with the reply to its own dialog, or drops the reply, and goes on |
| `SignonuiProxy.SignonuiProxy.CancelRequest` | src/daemon/gsignond-signonui-proxy.c:347-391 | accepts exactly the active request's caller if the UI takes it, and with a dialog active the caller of a waiting request; takes out that caller's first request and calls it back, and nothing else; a refused one changes nothing |
| `SignonuiProxy.SignonuiProxy.CloseUiConnection` | src/daemon/gsignond-signonui-proxy.c:206-217 | drops the connection and the timer |
| `SessionQueue.StepKeepsInv` | src/daemon/plugins/gsignond-plugin-proxy.c:102-241 | every call and every plugin callback keeps the invariant |
| `SessionQueue.RunKeepsInv` | src/daemon/plugins/gsignond-plugin-proxy.c:102-241 | and so does every run |
| `SessionQueue.CallbacksCounted` | src/daemon/plugins/gsignond-plugin-proxy.c:127-167 | the phase of a call tells how often its callback has run |
| `SessionQueue.EveryRunIsOrderly` | src/daemon/plugins/gsignond-plugin-proxy.c:518-605 | after any run: nothing waits with nothing active; the plugin has one initial request at a time, in the order of the calls; accepted calls are finished, active, waiting or removed |
| `SessionQueue.ReadyCallbacks` | src/daemon/plugins/gsignond-plugin-proxy.c:127-167 | how often a call's ready callback runs; exactly once exactly without intermediate responses; never for a call removed or merged |
| `SessionQueue.IntermediateResponseUsesUserdataTwice` | src/daemon/plugins/gsignond-plugin-proxy.c:150-167 | a run in which one userdata is used twice and another never |
| `PluginProxy.PluginProxy.Process` | src/daemon/plugins/gsignond-plugin-proxy.c:518-550 | with nothing active the call starts; only the active session's call, when expected, is passed on; every other one goes to the end of the queue, and the active call stays |
| `PluginProxy.PluginProxy.ResponseFinalCallback` | src/daemon/plugins/gsignond-plugin-proxy.c:127-148 | calls back the active call with the result and starts the first waiting one, if any; without an active session does nothing |
| `PluginProxy.PluginProxy.ProcessQueue` | src/daemon/plugins/gsignond-plugin-proxy.c:102-125 | starts the first waiting call, if any |
| `PluginProxy.PluginProxy.ResponseCallback` | src/daemon/plugins/gsignond-plugin-proxy.c:150-167 | calls back and expects a further request |
| `PluginProxy.PluginProxy.ErrorCallback` | src/daemon/plugins/gsignond-plugin-proxy.c:221-241 | the same with the error |
| `PluginProxy.PluginProxy.Cancel` | src/daemon/plugins/gsignond-plugin-proxy.c:552-605 | asks the plugin for the active session; takes the first entry of a waiting one out of the queue, and no other; knows exactly these |
| `DisposeTimer.TimerFollowsBalance` | src/common/gsignond-disposable.c:204-250 | with the timeout set once, over any run the timer is armed, once, exactly while holds and releases balance and there is a timeout |
| `DisposeTimer.SetTimeoutKeepsSoundIff` | src/common/gsignond-disposable.c:239-250 | setting the timeout keeps that exactly if it does not change or no timer runs |
| `DisposeTimer.SecondTimeoutLeavesFirstArmed` | src/common/gsignond-disposable.c:239-250 | two timeouts after each other leave two timers armed |
| `Disposable.Disposable.SetAutoDispose` | src/common/gsignond-disposable.c:226-237 | the new counter, with the timer armed exactly without holds and with a timeout |
| `DisposeTimer.AutoDisposeKeepsSound` | src/common/gsignond-disposable.c:226-237 | a hold or a release keeps the timer sound and moves the counter by one, not below 0 |
| `Disposable.Disposable.UpdateTimer` | src/common/gsignond-disposable.c:204-224 | arms the timer without holds, and disarms it with |
| `Disposable.Disposable.SetTimeout` | src/common/gsignond-disposable.c:239-250 | the new timeout, and which timers are armed; sound exactly if it did not change or no timer ran |
| `Disposable.Disposable.TimerDispose` | src/common/gsignond-disposable.c:191-202 | forgets the timer and disposes; the counter and the timeout stay |
| `AuthServiceAdapter.AuthServiceAdapter.CreateAndCacheIdentity` | src/daemon/dbus/gsignond-dbus-auth-service-adapter.c:280-311 | a first identity takes a hold, and the counter stays the running handlers plus one |
| `AuthServiceAdapter.AuthServiceAdapter.HandleQuery` | src/daemon/dbus/gsignond-dbus-auth-service-adapter.c:414-465 | a handler that hands nothing out leaves the counter as it was |
| `AuthServiceAdapter.AuthServiceAdapter.OnIdentityDisposed` | src/daemon/dbus/gsignond-dbus-auth-service-adapter.c:267-278 | the counter stays the running handlers plus one for a non-empty list |
| `AuthServiceAdapter.AuthServiceAdapter.HandleIdentity` | src/daemon/dbus/gsignond-dbus-auth-service-adapter.c:313-412 | the same over a whole handler that hands out an identity |
| `AuthServiceAdapter.AuthServiceAdapter.NeverFiresWhileHeld` | src/daemon/dbus/gsignond-dbus-auth-service-adapter.c:280-298 | a timer is armed exactly if no handler runs, no identity is held and there is a timeout |
| `AuthSession.NegotiatedMeaning` | src/daemon/gsignond-auth-session.c:100-160 | the cached list is sorted, and is the plugin's mechanisms that the identity may use |
| `AuthSession.NegotiatedMechanisms` | src/daemon/gsignond-auth-session.c:100-160 | how often each mechanism is in the list, from the plugin's list and the record's stored methods: all for a new identity, the intersection, all by "*", none without an entry |
| `AuthSession.AllowedAreThoseStored` | src/common/gsignond-identity-info.c:902-935 | the allowed mechanisms are those stored for the method |
| `AuthSession.AuthSession.CreateMechanismCache` | src/daemon/gsignond-auth-session.c:100-160 | fills the cache with that list, once |
| `AuthSession.AuthSession.UsableOf` | src/daemon/gsignond-auth-session.c:130-156 | the loops insert exactly the mechanisms that may be used, sorted |
| `AuthSession.NothingAllowed` | src/daemon/gsignond-auth-session.c:115-118 | a method without an entry gives no mechanism |
| `AuthSession.AuthSession.NotifyStore` | src/daemon/gsignond-auth-session.c:531-544 | the session caches the data |
| `AuthSession.AuthSession.QueryAvailableMechanisms` | src/daemon/gsignond-auth-session.c:162-198 | the wanted mechanisms that are available, in wanted order, then NULL slots; how many writes land past the slots |
| `AuthSession.MatchingInOrder` | src/daemon/gsignond-auth-session.c:180-195 | each wanted mechanism is kept or left out on its own, and the order stays |
| `AuthSession.DistinctWantedFits` | src/daemon/gsignond-auth-session.c:180-195 | the answer to a wanted list without repetitions fits the slots allocated for it |
| `AuthSession.RepeatedWantedNeedNotFit` | src/daemon/gsignond-auth-session.c:180-195 | one with repetitions need not |
| `IdentityStore.StoreMerges` | src/daemon/gsignond-identity.c:867-913 | a store changes neither id, validated flag nor reference count, and the owner only of a new identity; it replaces exactly the other fields present in the input |
| `IdentityStore.StoreFlags` | src/daemon/gsignond-identity.c:898-913 | and flags exactly those |
| `IdentityStore.OwnerOfNew` | src/daemon/gsignond-identity.c:867-913 | a new identity takes the input's owner exactly if its system context has an alphanumeric character |
| `IdentityStore.AlnumIff` | src/daemon/gsignond-identity.c:837-848 | a string names somebody if it has an ASCII letter or digit |
| `IdentityStore.WriteThroughKeepsCoherence` | src/daemon/gsignond-identity.c:452-466 | exactly when a written store signal leaves every cache equal to what is stored, whatever number the DELETE has |
| `IdentityStore.CachesStayCoherent` | src/daemon/gsignond-identity.c:452-572 | over any run from a new identity on (sessions, signals, the first save with its flush, other identities, failed writes, removals, sign-out), with any DELETE: every cache is always what is stored exactly if each event is one that keeps it so |
| `IdentityStore.StepIsCoherentIff` | src/daemon/gsignond-identity.c:452-572 | the exact condition for each event |
| `IdentityStore.MeantDeleteKeepsCaches` | src/daemon/gsignond-identity.c:452-572 | with the DELETE as meant nothing but a failed write or a removal breaks the caches |
| `IdentityStore.ForeignWriteIsCoherentIff` | src/daemon/gsignond-identity.c:452-466 | a write to another identity does harm exactly by this one's number, to caches that are not empty |
| `IdentityStore.FlushIsCoherentIff` | src/daemon/gsignond-identity.c:921-934 | after the flush of a new identity every cache is what is stored, exactly if each that is not empty was written and not undone by a later DELETE by the identity's own number |
| `IdentityStore.SurvivesIff` | src/daemon/gsignond-identity.c:921-934 | which writes of the flush stay: the successful ones, or by the identity's own number only the last of them |
| `IdentityStore.FullFlushKeeps` | src/daemon/gsignond-identity.c:921-934 | with every write successful, and not by that number, the flush keeps all caches |
| `IdentityStore.SignalIsCoherentIff` | src/daemon/gsignond-identity.c:452-466 | exactly when a store signal, written or not, leaves the caches coherent |
| `IdentityStore.ErasureIsCoherentIff` | src/daemon/db/gsignond-db-credentials-database.c:421-439 | removing an identity leaves its client's caches coherent exactly if they are empty, and those of any other always |
| `IdentityStore.ClearingIsCoherentIff` | src/daemon/db/gsignond-db-credentials-database.c:260-269 | clearing the databases does so exactly if the caches are empty |
| `IdentityStore.FailedWriteIsCoherentIff` | src/daemon/gsignond-identity.c:452-466 | exactly when a failed write, with the name interned or not, leaves the caches coherent |
| `IdentityStore.FlushOne` | src/daemon/gsignond-identity.c:820-834 | one write of the flush, seen from each method |
| `IdentityStore.NothingStoredYet` | src/daemon/gsignond-identity.c:929-934 | before the flush nothing is stored for a new identity |
| `IdentityStore.StoreKeepsCoherence` | src/daemon/gsignond-identity.c:850-940 | storing a saved identity leaves its caches coherent |
| `IdentityStore.MergedKeepsId` | src/daemon/gsignond-identity.c:899-913 | no input changes an identity's id |
| `IdentityStore.SignOutIsCoherentIff` | src/daemon/gsignond-identity.c:786-818 | after a sign-out the caches are what is stored exactly if they are all empty |
| `IdentityStore.SignedOutData` | src/daemon/gsignond-identity.c:786-818 | a sign-out takes all data of the identity away, and no other's |
| `IdentityStore.SignOutLeavesCache` | src/daemon/gsignond-identity.c:786-818 | a session opened and its token stored, coherent until the sign-out |
| `Identity.Identity.GetAuthSession` | src/daemon/gsignond-identity.c:485-572 | when a session is given out, the plugin proxy found or not; a new one starts with what is stored, or with nothing |
| `Identity.MethodAvailableIff` | src/daemon/gsignond-identity.c:528-537 | the method is one that the record names, or the identity is new and its record says nothing of methods |
| `Identity.Identity.OnStoreToken` | src/daemon/gsignond-identity.c:452-466 | caches and writes through, for an identity that may be gone; what became of the write, and exactly when the caches stay coherent, for any DELETE |
| `Identity.FlushTokens` | src/daemon/gsignond-identity.c:921-934 | the loop attempts every cached token once, in the order in which the table is walked, and the state is that of these attempts |
| `Identity.CanFlushIff` | src/daemon/gsignond-identity.c:820-834 | what the writes of a flush need to succeed: typed tokens under the limit, and statements that do not fail |
| `Identity.Identity.OnSessionDead` | src/daemon/gsignond-identity.c:474-483 | takes the session out; the rest stays coherent |
| `Identity.Identity.SignOut` | src/daemon/gsignond-identity.c:786-818 | clears the stored data of a saved identity, no other's and no credentials; coherent exactly if all caches were empty |
| `Identity.WriteToken` | src/daemon/gsignond-identity.c:462-465 | one write through: what became of it, and when it leaves the caches coherent |
| `Identity.Identity.StoreInDaemon` | src/daemon/gsignond-daemon.c:362-385 | the store in the database, the secrets it writes, and the record's flags reset |
| `Identity.Identity.Save` | src/daemon/gsignond-identity.c:919-934 | the store with its secrets, and for a new identity its id and the flush |
| `Identity.Identity.Store` | src/daemon/gsignond-identity.c:850-940 | the id it returns, the record, and both databases after a store, allowed or refused, of an identity that may be gone; the caches of a saved identity stay coherent, those of a new one exactly if the flush keeps them, as it does with every write successful and not by that identity's number |
| `Identity.StoreAllowedIff` | src/daemon/gsignond-identity.c:873-896 | a store needs write access, and for an input with a non-empty list the right to change it |
| `Identity.SavedReads` | src/daemon/gsignond-identity.c:919-934 | a store alters nothing of the record but a new identity's id, and leaves only that flagged |
| `Identity.Identity.MergeAndSave` | src/daemon/gsignond-identity.c:867-934 | the record takes the fields a client may set, and is stored |
| `Identity.Identity.FinishFirstSave` | src/daemon/gsignond-identity.c:929-934 | the id and the flush of a new identity, and exactly when the caches are coherent after it |

## Left out

- D-Bus, processes, pipes, signals, sockets and configuration: events and outcomes are parameters.
- Access control decisions: the outcome of each check is a parameter.
- Reference counting and memory: an object lives until the event that disposes it.
- SQL text and SQLite itself: a failed COMMIT leaves the tables as before; failures of statements other than constraint and trigger failures are modelled only where a parameter says so.
- Insertion and removal of references: REFS is only read, by triggers and foreign keys.
- Queries for identity lists, methods by security context, and references.
- The build option that adds triggers to ACL for methods and mechanisms, which is off by default (`configure.ac`).
- Row ids of ACL and OWNER, and how often a row is repeated there: nothing reads them.
- The order of dictionary entries, and repeated keys in a variant: dictionaries are maps.
- The edit-flag word is a set of fields; bits above 0x1000 do not occur. Its numeric value is used only by the copy loop.
- Boolean results of the setters, which are TRUE whenever the object is valid.
- Identity, method and session ids are unbounded; the source keeps them in 32 bits and they are meant below 2^31.
- String encodings, and NUL bytes inside strings.
- Callbacks of both proxies do not call back into the proxy, and the plugin answers after the call that started it returns.
- Requests without a callback: every dialog request has one.
- The refresh path of dialogs and the user-action path of sessions, which only forward.
- Session data, signon-UI data, nonces, file wiping, extension and plugin loading.
- SecretDatabase.SecretDatabase.UpdateData: stores every blob whole; from 2^31 bytes on the source passes SQLite a length cut to int, and what is stored then is not modelled. Only an entry of about 2^32 bytes or more, which breaks the limit, gets that far.
- PluginProxy.PluginProxy.Cancel: removes the session's first waiting entry, as intended; the source passes the queue's link where the entry is expected.
- MetadataDatabase.MetadataDatabase.CommitTransaction: a COMMIT that fails and leaves the transaction open is not modelled; with BEGIN EXCLUSIVE, as the source has it, SQLite rolls back by itself when a COMMIT fails.
- SecretDatabase.SecretDatabase.CommitTransaction: the same.
- Disposable.Disposable.SetTimeout: delete_later, which replaces the timer by an idle source, is not modelled.
