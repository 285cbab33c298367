# Verified model of one-core

one-core is a self-sovereign identity engine: it issues, holds and verifies credentials. This
project models, in Dafny, the parts of it whose correctness spans many rows, steps or tasks,
and proves what they keep.

**Claim trees.** A credential's claims carry slash-separated paths. One migration inserts the
missing container claims of arrays and objects above the leaf claims, with the proofs of what
lies below. A later one walks the claim schemas from the root and marks claims of SD-JWT
credentials as selectively disclosable. The modules `Paths`, `ClaimTree`, `ClaimStages`,
`ClaimSteps`, `ClaimSelection`, `ContainerClaims` and `SdJwtMarking` prove what the first
leaves behind for every credential, and then what both do in sequence.

**Deletion.** `Relational` is a small model of tables with restricting and set-null foreign
keys. `BatchUtils` shows that chunked queries and deletes equal the unbounded statements.
`DeletePlans` describes what any fixed sequence of deletes does to every row.
`CredentialSchemaDeletion` applies it to the hard deletion of credential schemas,
`DidRemovalPlan` and `DidRemoval` to the removal of all DIDs of one method. `SchemaRelations`
and `DidRelations` say, by columns alone, what belongs to a schema or DID and what may be left.

**Security tokens.** `StsToken` has the token checks and the fetching of the issuer's key set
(RFC 7517, section 5). `JwksProtocol` is the shared key store as a state machine: requests,
refresh tasks and the clock take steps in any order.

**Credential queries.** `Dcql` translates queries of the Digital Credentials Query Language
(section 6 of OpenID for Verifiable Presentations 1.0) into filters. `DcqlDisplay` is the text
of claim paths.

**Smaller migrations.** `DidIdentifiers`, `RevocationEntries`, `ProofInputs`, `KeyReferences`
and `TrustEntities` are relational migrations with paging, numbering, joins and
de-duplication.

`dafny verify dfyconfig.toml` checks the whole project.

## Where a promised property fails

Seven properties that one might expect do not hold of the code. Each comes with a concrete
input and with the exact condition under which the property holds.

- Proofs of leaves do not always reach the containers above them. The filter that drops array
  elements compares texts, so it also drops a property whose name extends the name of a
  sibling that an unordered query lists earlier. `ClaimTree.PropagationCanFail` has the input,
  `ContainerClaims.ShadowTablesLeafOnly` the tables that give it,
  `ClaimTree.PropagationIffNothingShadowed` the condition for one order of the query, and
  `ClaimTree.PropagationIffNamesApart` the one for all orders.
- Moving requested claims to proof inputs joins by credential schema alone, so a proof schema
  can acquire the requests of another one. `ProofInputs.RequestsCanSpread` has the input,
  `ProofInputs.ReproducedIffUsersAgree` the condition.
- The same move overwrites the order and required flag of a request with those the claim has in
  its credential schema. `ProofInputs.FlagsCanBeOverwritten` has the input,
  `ProofInputs.FullyReproducedIffAllAgree` the condition.
- The hard deletion does not always succeed, although it collects what it deletes first.
  `CredentialSchemaDeletion.DeletionCanFail` has the input,
  `CredentialSchemaDeletion.UnblockedIffDeletable` the condition.
- A successful hard deletion does not leave all other rows unchanged, because a shared blob is
  deleted and references to it are cleared. `CredentialSchemaDeletion.SurvivorsCanChange` has
  the input, `CredentialSchemaDeletion.UnchangedIffBlobsApart` the condition.
- The removal of DIDs does not always succeed: revocation lists go before the credentials that
  refer to them, and identifiers found by key only may still be in use.
  `DidRemoval.RemovalCanFail` has the input, `DidRemovalPlan.UnblockedIffRemovable` the
  condition.
- The text of a claim path does not always determine it. `DcqlDisplay.SeparatorsCollide` has a
  family of inputs, `DcqlDisplay.CollidesIffAmbiguous` the condition.

Removing DIDs also removes the relations of their keys to other DIDs, and identifiers,
credentials and proofs that involve those keys. `DidRemoval.RemovalOutcome` states this as the
code does it.

## Model

| member | source | states |
|---|---|---|
| `ContainerClaims.Database.Up` | lib/migration/src/m20250811_154134_insert_container_claims.rs:62-70 | Every credential created before the cutoff whose claims were leaves only ends up with exactly the leaves and all their ancestors, one claim per path, each with the schema of its path and the proofs it is due. No old claim changes or gains or loses a proof, and every new claim belongs to a credential created before the cutoff |
| `ContainerClaims.MigratedHasParents` | lib/migration/src/m20250811_154134_insert_container_claims.rs:376-419 | After the migration every claim with a `/` in its path has a claim of the same credential at the path above it |
| `ContainerClaims.MigratedProofsAreUnions` | lib/migration/src/m20250811_154134_insert_container_claims.rs:380-419 | After the migration a claim has a proof only if a leaf at or below it had it, and exactly then when no present property is shadowed |
| `ContainerClaims.UnionsIffPropagation` | lib/migration/src/m20250811_154134_insert_container_claims.rs:380-419 | The migrated tables give every claim the union of the proofs of its leaves if and only if proofs propagate in the claim tree, which shadowing decides |
| `ContainerClaims.ShadowTablesLeafOnly` | lib/migration/src/m20250811_154134_insert_container_claims.rs:366-373 | Tables with keys `a`, `a/b` and `a/bc` are leaf-only and give the claim tree of the failing example |
| `ContainerClaims.TablesCanLoseProof` | lib/migration/src/m20250811_154134_insert_container_claims.rs:366-373 | Whatever tables the migration leaves for that example, some claim has lost a proof of a leaf below it |
| `ClaimTree.PropagationIffNamesApart` | lib/migration/src/m20250811_154134_insert_container_claims.rs:273-374 | Proof sets propagate as unions to every depth, for every order in which the unordered query may answer and every assignment of proofs to leaves, if and only if no two present properties of one object instance have one name as a textual prefix of the other |
| `ClaimTree.PropagationIffNothingShadowed` | lib/migration/src/m20250811_154134_insert_container_claims.rs:339-374 | For one order of the query the union law holds, for every assignment of proofs to leaves, if and only if no present property is shadowed by an earlier listed sibling whose name is a textual prefix of its own |
| `ClaimTree.PropagationCanFail` | lib/migration/src/m20250811_154134_insert_container_claims.rs:366-373 | The union law is false in general: with properties `b` and `bc`, listed in that order, a proof of `a/bc` is lost for `a` |
| `ClaimTree.ShadowedLosesProof` | lib/migration/src/m20250811_154134_insert_container_claims.rs:366-373 | A proof held only below a shadowed property is never attached to its object, for every credential |
| `ClaimTree.PrefixFreeNeverShadows` | lib/migration/src/m20250811_154134_insert_container_claims.rs:366-373 | Sibling names that are not textual prefixes of each other rule shadowing out |
| `ClaimTree.KeptShadower` | lib/migration/src/m20250811_154134_insert_container_claims.rs:348-373 | A shadowed property always has a sibling that shadows it and is itself kept, so no object loses its container |
| `ClaimTree.AttachedOnlyIf` | lib/migration/src/m20250811_154134_insert_container_claims.rs:380-419 | No container is attached to a proof that no leaf beneath it has, at any depth |
| `ClaimTree.LocationFixesLength` | lib/migration/src/m20250811_154134_insert_container_claims.rs:137-146 | Two paths at the same location in the schema tree have the same number of components, so indices never mix up depths |
| `ClaimSelection.FilterDecidesSpeaking` | lib/migration/src/m20250811_154134_insert_container_claims.rs:348-374 | The textual prefix filter over rows in path order keeps a row if and only if it is a direct, unshadowed property of its object. Elements of a child array are dropped because their container precedes them |
| `ContainerClaims.Database.SelectDirectChildren` | lib/migration/src/m20250811_154134_insert_container_claims.rs:339-374 | The filter over all child schemas picks exactly the direct, unshadowed property claims |
| `ContainerClaims.Database.CollectParents` | lib/migration/src/m20250811_154134_insert_container_claims.rs:380-419 | It fails if and only if some path is too short. Otherwise the collected parents are exactly the paths one step up, and two steps up for an array of objects, each with the union of the proofs of the claims below it |
| `ContainerClaims.Database.InsertClaimsWithProofRelation` | lib/migration/src/m20250811_154134_insert_container_claims.rs:186-232 | Exactly one new claim per parent path and exactly its proofs are added, and nothing else changes |
| `ContainerClaims.Database.PathsToClaims` | lib/migration/src/m20250811_154134_insert_container_claims.rs:461-480 | One new claim per path with an unused id of its own |
| `ContainerClaims.Database.MigrateCredentialArrays` | lib/migration/src/m20250811_154134_insert_container_claims.rs:108-166 | The step never fails on a leaf-only credential and completes the containers of its array schema. A failing step changes nothing, and none touches other credentials or old rows |
| `ContainerClaims.Database.MigrateCredentialObjects` | lib/migration/src/m20250811_154134_insert_container_claims.rs:329-429 | The step never fails once the schemas below are done and completes the claims of its object schema. A failing step changes nothing, and none touches other credentials or old rows |
| `ContainerClaims.ChildrenComeFirst` | lib/migration/src/m20250811_154134_insert_container_claims.rs:431-459 | In descending key order a child schema precedes its parent |
| `ContainerClaims.ObjectsBottomUp` | lib/migration/src/m20250811_154134_insert_container_claims.rs:261-327 | When an object schema is reached, all its properties already have all their claims |
| `ContainerClaims.Database.SelectSchemas` | lib/migration/src/m20250811_154134_insert_container_claims.rs:73-106 | The query returns exactly the schemas of the pass, in descending key order |
| `ContainerClaims.Database.SelectChildSchemas` | lib/migration/src/m20250811_154134_insert_container_claims.rs:273-304 | The query returns exactly the ids of the direct child schemas, in storage order |
| `ContainerClaims.Database.InsertIntermediaryArrayClaims` | lib/migration/src/m20250811_154134_insert_container_claims.rs:73-106 | After the first pass every array of plain values is complete for every covered credential |
| `ContainerClaims.Database.InsertIntermediaryObjectClaims` | lib/migration/src/m20250811_154134_insert_container_claims.rs:261-327 | After the second pass every covered credential is fully migrated |
| `ClaimStages.InsertingContainersAdvances` | lib/migration/src/m20250811_154134_insert_container_claims.rs:186-232 | Inserting exactly the present instances of one schema with their due proofs moves a credential from one stage of completeness to the next |
| `ClaimStages.OtherCredentialsKeepStage` | lib/migration/src/m20250811_154134_insert_container_claims.rs:84-106 | A step for one credential leaves the stage of every other credential as it was |
| `ClaimSteps.ArrayParents` | lib/migration/src/m20250811_154134_insert_container_claims.rs:137-160 | The parents collected in an array step are exactly the present array containers, with the proofs they are due |
| `ClaimSteps.ObjectParents` | lib/migration/src/m20250811_154134_insert_container_claims.rs:380-419 | The parents collected in an object step are exactly the present instances of the object, and its array container where it has one, with the proofs they are due |
| `Paths.RSplitOnce` | lib/migration/src/m20250811_154134_insert_container_claims.rs:141 | The split is at the last `/`: the parts rejoin to the text and the second one has no `/` |
| `Paths.JoinComponents` | lib/migration/src/m20250811_154134_insert_container_claims.rs:141 | Splitting a text at every `/` and joining the parts again gives the text |
| `Paths.ComponentsJoin` | lib/migration/src/m20250811_154134_insert_container_claims.rs:141 | Joining parts without `/` and splitting again gives the parts |
| `Paths.SplitDropsLast` | lib/migration/src/m20250811_154134_insert_container_claims.rs:388 | Cutting a text at its last `/` is dropping the last component of the path |
| `Paths.StartsWithMeaning` | lib/migration/src/m20250811_154134_insert_container_claims.rs:366-373 | `starts_with` on texts holds if and only if all components but the last agree and the last one is a textual prefix of the component at its place |
| `Paths.DirectChildMeaning` | lib/migration/src/m20250811_154134_insert_container_claims.rs:280-300 | The two LIKE conditions hold of exactly the keys one component longer than the parent key |
| `Paths.PrefixComesFirst` | lib/migration/src/m20250811_154134_insert_container_claims.rs:348-351 | In ascending order a text stands after every text that is a prefix of it |
| `Paths.OrderBy` | lib/migration/src/m20250811_154134_insert_container_claims.rs:348-351 | Sorting returns the same rows, each as often, in ascending order |
| `Paths.FirstDifferenceDecides` | lib/migration/src/m20250811_154134_insert_container_claims.rs:348-351 | Of two texts the one with the smaller character at the first difference comes first |
| `SdJwtMarking.InsertContainersThenMark` | lib/migration/src/m20250818_090154_set_selectively_disclosable_on_sd_jwt_claims.rs:39-67 | Both migrations in turn: among the claims of a leaf-only SD-JWT credential exactly those become selectively disclosable whose path is the key of their schema. So array containers do, and array elements and everything below them do not |
| `SdJwtMarking.Marker.ProcessCredentialSchema` | lib/migration/src/m20250818_090154_set_selectively_disclosable_on_sd_jwt_claims.rs:70-182 | It fails if and only if some key has no parent among the keys. Whether it fails or not it marks exactly the claims of schemas before the first such key that have no array above, only the top ones for an array schema, and it never unmarks a claim or touches another schema |
| `SdJwtMarking.RowsBeforeOrphan` | lib/migration/src/m20250818_090154_set_selectively_disclosable_on_sd_jwt_claims.rs:96-114 | The rows before the first key without a parent are exactly the schemas that no such key precedes |
| `SdJwtMarking.WalkedIsDisclosed` | lib/migration/src/m20250818_090154_set_selectively_disclosable_on_sd_jwt_claims.rs:70-182 | A walk that does not fail gets to every claim schema |
| `SdJwtMarking.Marker.TopClaims` | lib/migration/src/m20250818_090154_set_selectively_disclosable_on_sd_jwt_claims.rs:117-158 | The fold over the ordered rows keeps claims such that every claim of the schema has exactly one kept claim of its credential whose path is a textual prefix of its own |
| `SdJwtMarking.CoverIsTop` | lib/migration/src/m20250818_090154_set_selectively_disclosable_on_sd_jwt_claims.rs:117-158 | Where no path of the credential occurs twice, the kept claims are exactly those no other claim of their credential and schema is a prefix of |
| `SdJwtMarking.Marker.Up` | lib/migration/src/m20250818_090154_set_selectively_disclosable_on_sd_jwt_claims.rs:39-67 | Only claims of SD-JWT credential schemas are newly marked, and in each of these schemas exactly what its own walk marks, failing or not, whatever happens to the others |
| `SdJwtMarking.InfoStep` | lib/migration/src/m20250818_090154_set_selectively_disclosable_on_sd_jwt_claims.rs:103-114 | The flag inherited one level at a time equals the absence of any array strictly above, at every depth |
| `SdJwtMarking.TopIsContainer` | lib/migration/src/m20250818_090154_set_selectively_disclosable_on_sd_jwt_claims.rs:117-158 | In a migrated credential a claim of an array without an array above is kept by the fold if and only if it is the array container |
| `SdJwtMarking.DisclosedIffPathIsKey` | lib/migration/src/m20250818_090154_set_selectively_disclosable_on_sd_jwt_claims.rs:103-170 | In a migrated credential the walk discloses a claim if and only if its path has no index |
| `SdJwtMarking.IndexFree` | lib/migration/src/m20250818_090154_set_selectively_disclosable_on_sd_jwt_claims.rs:103-114 | A path equals its schema key exactly when no array is entered on the way to it |
| `CredentialSchemaDeletion.HardDelete` | lib/migration/src/deletion.rs:17-214 | The deletion succeeds if and only if three conditions on the tables before it hold. On success every foreign key still refers to an existing row, and the rows left are, table by table and column by column, exactly those that do not hang on the credential schemas, without their references to blobs that went. No row with one of the schema ids is left, no claim schema, credential or proof input schema of one, no proof schema that asked for one, and no interaction or blob of a credential or proof that went |
| `SchemaRelations.NothingIsLeft` | lib/migration/src/deletion.rs:17-214 | If exactly the rows related to the credential schemas went, nothing of the schemas is left: neither the rows that refer to them, nor the proof schemas that asked for them, nor the interactions and blobs, through each of their columns, of what went |
| `CredentialSchemaDeletion.CollectIsRelated` | lib/migration/src/deletion.rs:21-160 | The one pass collects an id if and only if a row with this id stands in one of the followed relations to the credential schemas |
| `CredentialSchemaDeletion.DeletesByColumns` | lib/migration/src/deletion.rs:162-213 | The thirteen deletes leave a row if and only if neither its own id nor, for rows that belong to another, the id of the proof input schema, proof or credential goes |
| `CredentialSchemaDeletion.UnblockedIffDeletable` | lib/migration/src/deletion.rs:162-213 | None of the 13 deletes is blocked by a foreign key if and only if no attested key refers to a removed revocation entry, no remaining credential or proof shares an interaction with a removed one, and no remaining proof input asks for a removed claim schema |
| `CredentialSchemaDeletion.DeletionCanFail` | lib/migration/src/deletion.rs:162-213 | The deletion can fail on tables with valid references: two credentials of different schemas share an interaction |
| `CredentialSchemaDeletion.SharedInteractionUndeletable` | lib/migration/src/deletion.rs:106-123 | Whenever a credential that goes shares its interaction with one that stays, the deletion fails |
| `CredentialSchemaDeletion.CollectionCloses` | lib/migration/src/deletion.rs:21-160 | One pass of collection is closed: whatever hangs on a collected row through the followed relations is collected |
| `CredentialSchemaDeletion.SecondPassFindsNothing` | lib/migration/src/deletion.rs:21-160 | After the deletion a second collection for the same credential schemas finds nothing |
| `CredentialSchemaDeletion.SurvivorsAreUntaken` | lib/migration/src/deletion.rs:162-213 | Every table holds afterwards exactly the rows that the delete for the table does not name, without their references to blobs that went |
| `CredentialSchemaDeletion.UnchangedIffBlobsApart` | lib/migration/src/deletion.rs:125-160 | Every row that is not collected is left unchanged if and only if no credential or proof that stays shares a blob with one that goes |
| `CredentialSchemaDeletion.UnchangedRowIff` | lib/migration/src/deletion.rs:125-160 | A row is still there, unchanged, if and only if its delete does not name it and it refers to no blob that went |
| `CredentialSchemaDeletion.SurvivorsCanChange` | lib/migration/src/m20250807_141417_blob_storage_foreign_key_relations.rs:29-51 | A successful deletion can change a row that stays: two credentials of different schemas share a blob |
| `CredentialSchemaDeletion.SharedBlobIsCleared` | lib/migration/src/m20250807_141417_blob_storage_foreign_key_relations.rs:29-51 | Whenever a credential that goes shares its blob with one that stays, the latter is changed |
| `CredentialSchemaDeletion.OwnInputClaims` | lib/migration/src/deletion.rs:68-84 | The third condition holds whenever input claims belong to the credential schema of their own input |
| `CredentialSchemaDeletion.CollectIds` | lib/migration/src/deletion.rs:21-160 | The chunked queries collect exactly the ids of what hangs on the credential schemas, each relation read off its columns |
| `CredentialSchemaDeletion.RunDeletes` | lib/migration/src/deletion.rs:162-213 | The sequence stops if and only if some delete is blocked on the tables at the start. Otherwise, on valid tables, it leaves exactly the rows of each table whose ids do not go, without their references to blobs that go |
| `DeletePlans.FatesAlwaysHold` | lib/migration/src/deletion.rs:162-213 | After every prefix of a delete sequence each table holds, in order, exactly the rows no delete took, less the set-null columns that refer to removed rows |
| `DeletePlans.ViolatesIffBlocked` | lib/migration/src/deletion.rs:162-213 | A delete in the middle of the sequence violates a key if and only if a row untouched by the earlier deletes refers, in the original tables, to a row it removes |
| `DeletePlans.IntegrityThroughout` | lib/migration/src/deletion.rs:162-213 | References stay valid after every delete of an unblocked sequence |
| `DeletePlans.UnblockedIsClosed` | lib/migration/src/deletion.rs:162-213 | Whatever refers through a restricting key to a row that an unblocked sequence takes is taken as well |
| `DeletePlans.UnchangedIff` | lib/migration/src/deletion.rs:162-213 | A row stays as it is if and only if no delete takes it and none of its columns is cleared |
| `Relational.DeleteKeepsIntegrity` | lib/migration/src/m20250807_141417_blob_storage_foreign_key_relations.rs:29-51 | A delete that violates no restricting key keeps every reference valid, set-null keys included |
| `BatchUtils.Manager.GetIdsBatched` | lib/migration/src/batch_utils.rs:14-50 | The chunks together return the same ids, with the same multiplicities, as one unbounded query |
| `BatchUtils.Manager.DeleteBatched` | lib/migration/src/batch_utils.rs:67-98 | The chunked delete fails if and only if one unbounded delete would, and otherwise has the same effect |
| `BatchUtils.UniqueIds` | lib/migration/src/batch_utils.rs:100-103 | The same ids, each once |
| `BatchUtils.SelectUnion` | lib/migration/src/batch_utils.rs:24-47 | Selecting for two disjoint sets of ids selects, with multiplicities, what selecting for their union does |
| `BatchUtils.DeleteTwice` | lib/migration/src/batch_utils.rs:77-95 | Two deletes on one table have the effect of one delete for both sets of ids |
| `BatchUtils.ViolatesTwice` | lib/migration/src/batch_utils.rs:77-95 | The second of two deletes fails exactly when the joint delete would, given that the first does not |
| `DidRemoval.Remover.RemoveDidsAndRelated` | lib/migration/src/m20250608_142503_remove_did_mdl.rs:53-105 | The removal succeeds if and only if four conditions on the tables before it hold. On success every reference stays valid and the remaining rows of every table are determined by their columns: a credential stays if and only if its holder, issuer and key are no identifier and no key of one of the DIDs, a proof likewise with its holder, verifier and verifier key. History and interactions are gone for exactly the rows that went and for the DIDs. An empty list changes nothing |
| `DidRemovalPlan.UnblockedIffRemovable` | lib/migration/src/m20250608_142503_remove_did_mdl.rs:53-105 | None of the 13 deletes is blocked if and only if no credential refers to a revocation list that goes, every credential or proof that refers to an identifier that goes is collected, no other revocation list or certificate refers to one, and no remaining credential or proof shares an interaction with a removed one |
| `DidRemovalPlan.CollectionCloses` | lib/migration/src/m20250608_142503_remove_did_mdl.rs:53-105 | Claims, identifiers, key relations and trust entities that hang on the collected rows are collected |
| `DidRemoval.RemovalOutcome` | lib/migration/src/m20250608_142503_remove_did_mdl.rs:53-105 | What the unblocked deletes leave, table by table, and that its references are valid |
| `DidRemoval.NoDanglingRelation` | lib/migration/src/m20250608_142503_remove_did_mdl.rs:53-105 | No remaining identifier, key relation or trust entity refers to one of the DIDs, and no remaining credential or proof refers through its holder, issuer, verifier or key column to an identifier or key of one |
| `DidRemoval.RemovalCanFail` | lib/migration/src/m20250608_142503_remove_did_mdl.rs:126-142 | The removal can fail on tables with valid references: a credential refers to the revocation list of an identifier of the DID |
| `DidRemoval.UsedListUnremovable` | lib/migration/src/m20250608_142503_remove_did_mdl.rs:126-142 | Whenever a credential refers to a revocation list of an identifier of a DID, the removal fails, even if the credential would go too |
| `DidRemoval.KeyIdentifierUnremovable` | lib/migration/src/m20250608_142503_remove_did_mdl.rs:442-482 | Whenever a credential that stays refers to an identifier found by a key only, the removal fails |
| `DidRemoval.Remover.DeleteCredentials` | lib/migration/src/m20250608_142503_remove_did_mdl.rs:194-314 | It fails if and only if one of its four deletes is blocked on the tables before the run. Otherwise exactly the credentials are left that hold none of the identifiers as holder or issuer and none of the keys, and the ids and interactions of the others, and no further ones, are added |
| `DidRemoval.Remover.DeleteProofClaims` | lib/migration/src/m20250608_142503_remove_did_mdl.rs:316-343 | The same for the links of the claims of those credentials |
| `DidRemoval.Remover.DeleteProofs` | lib/migration/src/m20250608_142503_remove_did_mdl.rs:345-421 | It fails if and only if one of its two deletes is blocked on the tables before the run. Otherwise exactly the proofs are left that hold none of the identifiers as holder or verifier and none of the keys as verifier key, and the ids and interactions of the others, and no further ones, are added |
| `DidRemoval.Remover.DeleteTrustEntities` | lib/migration/src/m20250608_142503_remove_did_mdl.rs:144-174 | The same for the trust entities of the DIDs, whose ids join the history ids |
| `DidRemoval.Remover.DeleteRevocationLists` | lib/migration/src/m20250608_142503_remove_did_mdl.rs:126-142 | The same for the revocation lists of the identifiers of the DIDs |
| `DidRemoval.Remover.DeleteIdentifiers` | lib/migration/src/m20250608_142503_remove_did_mdl.rs:442-482 | The same for the identifiers of the DIDs or of their keys, whose ids join the history ids |
| `DidRemoval.Remover.DeleteRest` | lib/migration/src/m20250608_142503_remove_did_mdl.rs:423-527 | The same for key relations, DIDs, interactions and history |
| `JwksProtocol.OutcomeIsSequential` | apps/core-server/src/sts_token_validator.rs:51-110 | In every run, whatever the interleaving, a finished request is admitted or rejected exactly as the sequential check decides for the time it arrived and the keys it read, with the same error |
| `JwksProtocol.AdmittedIsVerified` | apps/core-server/src/sts_token_validator.rs:51-110 | In every run an admitted token passed all checks on arrival and its signature was verified by the key its key id has in a key set that the same request read from the store and that one fetch produced as a whole |
| `JwksProtocol.NextInv` | apps/core-server/src/sts_token_validator.rs:51-110 | Every interleaved step of requests, refresh tasks and clock keeps the invariant on lock, store and requests, stores only what the task fetched, and adds a task if and only if the request finds its keys past their expiry |
| `JwksProtocol.RunInv` | apps/core-server/src/sts_token_validator.rs:51-110 | The invariant holds in every state of every run |
| `JwksProtocol.OneFetchAtATime` | apps/core-server/src/sts_token_validator.rs:87-110 | In every run at most one refresh is between taking the lock and releasing it |
| `JwksProtocol.StoreIsFetched` | apps/core-server/src/sts_token_validator.rs:87-110 | The store is never a mixture: it always holds the complete result of one fetch |
| `JwksProtocol.OnlyWritesChangeStore` | apps/core-server/src/sts_token_validator.rs:95-105 | Storing puts exactly the result of the task into the store, nothing else changes it, and a failed fetch leaves it alone |
| `JwksProtocol.WriteStoresFetched` | apps/core-server/src/sts_token_validator.rs:95-105 | In every run what a task stores is what that very task fetched, dated from the time of that fetch |
| `JwksProtocol.SpawnedIffExpired` | apps/core-server/src/sts_token_validator.rs:87-110 | In every run a refresh task exists if and only if some request spawned it on finding that the keys it read had run out before that time |
| `JwksProtocol.CheckedKeysWereLookedAt` | apps/core-server/src/sts_token_validator.rs:87-110 | In every run a token is checked only after its request looked at the expiry of the keys it uses, and a refresh was spawned then if and only if these keys had run out |
| `JwksProtocol.RefreshCompletes` | apps/core-server/src/sts_token_validator.rs:95-105 | A spawned task that finds the lock free ends, with one successful fetch and by steps of its own, with the lock free and the fetched keys in the store, valid for the configured time from the fetch, so no longer expired |
| `JwksProtocol.TtlNeverDecreases` | apps/core-server/src/sts_token_validator.rs:87-110 | The expiry time of the stored keys never goes back over a run |
| `JwksProtocol.TaskProgress` | apps/core-server/src/sts_token_validator.rs:213-245 | Every step of a refresh task lowers its remaining steps, and no other step touches it |
| `JwksProtocol.HolderCanMove` | apps/core-server/src/sts_token_validator.rs:213-245 | The holder of the lock always has a step of its own to take |
| `JwksProtocol.LockIsReleased` | apps/core-server/src/sts_token_validator.rs:213-245 | In every run a refresh task takes at most four steps more than the retries, and one that has taken them is finished and does not hold the lock |
| `StsToken.AcceptedWindow` | apps/core-server/src/sts_token_validator.rs:113-139 | A payload accepted at some time is, under any leeway, accepted at exactly the times from its start less the leeway to its expiry plus the leeway |
| `StsToken.FirstFaultIsReported` | apps/core-server/src/sts_token_validator.rs:51-85 | A token is accepted, as decoded, if and only if it has none of the thirteen faults, and is otherwise refused with the first of them in the order of the checks |
| `StsToken.RefusalsLast` | apps/core-server/src/sts_token_validator.rs:113-139 | An expired payload stays expired, one that is not valid yet was not valid before, and any other refusal is the same at all times, so it takes precedence over them |
| `StsToken.OnlyOwnKeyMatters` | apps/core-server/src/sts_token_validator.rs:51-85 | The outcome depends on the key set through the one key that the token names |
| `StsToken.CollectKeys` | apps/core-server/src/sts_token_validator.rs:223-230 | Fails if and only if some key with an id does not parse, and otherwise gives each id its last key |
| `StsToken.KeysOfUnique` | apps/core-server/src/sts_token_validator.rs:223-230 | A key set document determines its key map |
| `StsToken.FetchJwksWithRetries` | apps/core-server/src/sts_token_validator.rs:213-245 | At most one attempt more than the retries. It gives up if and only if all of them fail, and otherwise the first response decides |
| `Dcql.TranslationPreservesMeaning` | lib/dcql/src/matching.rs:38-102 | Whatever a claim at a path, with accepted values, required or not, is taken to mean, a credential passes some filter of the translation if and only if it meets the query: format, schema, and some claim set or all claims. A claim query without values accepts any value, and one that does not say otherwise is required |
| `Dcql.FilterLetsWhatIsAsked` | lib/dcql/src/mapper.rs:60-68 | A claim filter with the path, values and flag of a claim query lets through what the query asks for, under every reading of path, values and flag |
| `Dcql.CredentialFilters` | lib/dcql/src/matching.rs:38-69 | Fails if and only if some credential query is faulty, with the first fault of the first faulty one. Otherwise every id has the translation of the last query with that id |
| `Dcql.QueryFilters` | lib/dcql/src/matching.rs:38-69 | One query fails if and only if it is faulty, with its first fault, and otherwise is translated |
| `Dcql.ProcessClaims` | lib/dcql/src/matching.rs:72-102 | Fails if and only if claim sets are used and a claim has no id or a set names an undeclared id. Otherwise there is one filter per set, in order, or one filter for all claims |
| `Dcql.ClaimFiltersToMap` | lib/dcql/src/matching.rs:104-123 | Fails on the first claim without id, and otherwise maps each id to the filter of its last declaration, with the path and values of that claim and required unless it says otherwise |
| `Dcql.SchemaIds` | lib/dcql/src/matching.rs:42-56 | The schema ids are, in order, those the metadata lists, for W3C credentials the last element of each non-empty list |
| `Dcql.ListedSchemasMeaning` | lib/dcql/src/matching.rs:42-56 | A schema is among those ids if and only if the metadata names it |
| `Dcql.NoSetsIsOneSet` | lib/dcql/src/matching.rs:72-102 | With distinct ids, leaving claim sets out is the same as one set of all ids |
| `DcqlDisplay.CollidesIffAmbiguous` | lib/dcql/src/display.rs:19-39 | Another claim path has the same text if and only if the path has two property names, or one that reads as two names with indices and wildcards between them |
| `DcqlDisplay.ShowInjective` | lib/dcql/src/display.rs:19-39 | Among claim paths none of whose names contains a quote, a comma and a space in a row the text determines the path |
| `DcqlDisplay.SeparatorsCollide` | lib/dcql/src/display.rs:19-39 | Every name with a quote, comma, space and quote in a row has the same text as the two names around them, so text does not determine the path in general |
| `DcqlDisplay.ValueOfDecimal` | lib/dcql/src/display.rs:31-39 | The text of an index reads back as the index |
| `DcqlDisplay.ShowWrites` | lib/dcql/src/display.rs:19-39 | The text of a path is, in brackets and separated by comma and space, every name in quotes, every index in decimal without leading zeros, and null for all elements |
| `DidIdentifiers.Database.Up` | lib/migration/src/m20250502_075301_did_identifier.rs:20-75 | The paging loop ends for every number of DIDs and makes exactly one identifier per DID, with the id, name and organisation of the DID, and remote, deactivated or deleted if and only if the DID is. Every credential and proof column then names the identifier of its DID |
| `DidIdentifiers.OrderIsUnique` | lib/migration/src/m20250502_075301_did_identifier.rs:93-120 | A query ordered by a unique column has one result, so pages of separate queries fit together |
| `DidIdentifiers.Database.CreateIdentifiersForDids` | lib/migration/src/m20250502_075301_did_identifier.rs:93-163 | A page that reports no further page was the last one, and otherwise exactly its DIDs were added |
| `DidIdentifiers.Database.SelectPage` | lib/migration/src/m20250502_075301_did_identifier.rs:93-120 | A page is the stretch of the one ordered listing that its number says |
| `DidIdentifiers.Database.SetIdentifiers` | lib/migration/src/m20250502_075301_did_identifier.rs:167-182 | The holder, issuer and verifier columns are copied and nothing else changes |
| `DidIdentifiers.Database.PopulateRevocationLists` | lib/migration/src/m20250605_085900_populate_identifier_id_column_in_revocation_list.rs:9-36 | Every list whose issuer DID has an identifier gets such an identifier, and the others stay |
| `DidIdentifiers.MigrateIssuers` | lib/migration/src/m20250605_085900_populate_identifier_id_column_in_revocation_list.rs:9-36 | Both migrations in turn: a credential and a revocation list with the same issuer DID end with the same identifier, and it belongs to that DID |
| `RevocationEntries.Up` | lib/migration/src/m20251030_110836_revocation_list_entry.rs:89-160 | The table holds, for every list, exactly the entries of the eligible credentials of its issuer, each at its position in creation order. No two rows have the same list and index, and an eligible credential has exactly one row in each list of its issuer, any other none |
| `RevocationEntries.ListAndIndexUnique` | lib/migration/src/m20251030_110836_revocation_list_entry.rs:89-160 | Adding the entries of a further list keeps list and index unique over all rows of the table |
| `RevocationEntries.OneEntryPerListAndCredential` | lib/migration/src/m20251030_110836_revocation_list_entry.rs:89-160 | An eligible credential has exactly one row in each list of its issuer, at its position among all credentials of the issuer, and no other credential has one |
| `RevocationEntries.IndexFollowsCreation` | lib/migration/src/m20251030_110836_revocation_list_entry.rs:89-160 | In one list an earlier credential has a smaller index |
| `ProofInputs.FullyReproducedIffAllAgree` | lib/migration/src/m20240314_141907_remove_proof_schema_claim_schema_relation.rs:55-192 | The requests of each proof schema come out unchanged, with their order and required flag, if and only if proof schemas that use the same credential schema request the same of its claims and every request has the order and flag of its claim in the credential schema |
| `ProofInputs.ReproducedIffUsersAgree` | lib/migration/src/m20240314_141907_remove_proof_schema_claim_schema_relation.rs:55-192 | The pairs of proof schema and claim alone come out unchanged if and only if proof schemas that use the same credential schema request the same of its claims |
| `ProofInputs.RequestsWithAfter` | lib/migration/src/m20240314_141907_remove_proof_schema_claim_schema_relation.rs:66-79 | After the move every request has the order and required flag of the claim in its credential schema |
| `ProofInputs.FlagsCanBeOverwritten` | lib/migration/src/m20240314_141907_remove_proof_schema_claim_schema_relation.rs:66-79 | An optional request at position 3 becomes required and moves to position 0, although all users agree |
| `ProofInputs.RequestsAfter` | lib/migration/src/m20240314_141907_remove_proof_schema_claim_schema_relation.rs:55-127 | After the move a proof schema requests exactly the claims that any proof schema requested of a credential schema it uses |
| `ProofInputs.RequestsCanSpread` | lib/migration/src/m20240314_141907_remove_proof_schema_claim_schema_relation.rs:55-127 | The old relation is not always reproduced: two proof schemas with different claims of one credential schema end with both claims |
| `ProofInputs.NoRequestLost` | lib/migration/src/m20240314_141907_remove_proof_schema_claim_schema_relation.rs:55-127 | No requested claim is lost |
| `ProofInputs.SingleUserReproduced` | lib/migration/src/m20240314_141907_remove_proof_schema_claim_schema_relation.rs:55-127 | A credential schema used by a single proof schema keeps exactly the claims requested of it |
| `ProofInputs.SingleUserKeepsFlags` | lib/migration/src/m20240314_141907_remove_proof_schema_claim_schema_relation.rs:55-127 | The request of a single user for a claim keeps its order and required flag if and only if they are those of the claim in the credential schema |
| `ProofInputs.OneInputPerUsedPair` | lib/migration/src/m20240314_141907_remove_proof_schema_claim_schema_relation.rs:129-192 | There is exactly one input per used pair of credential schema and proof schema, and none for other pairs |
| `ProofInputs.InputClaimKeyUnique` | lib/migration/src/m20240314_141907_remove_proof_schema_claim_schema_relation.rs:55-127 | The two key columns determine an input claim |
| `ProofInputs.Up` | lib/migration/src/m20240314_141907_remove_proof_schema_claim_schema_relation.rs:19-53 | Every selected input is inserted once under an id of its own, and the claims are joined to them |
| `KeyReferences.KeyDidTable.Up` | lib/migration/src/m20250728_090404_did_key_reference.rs:31-91 | Nothing changes if and only if a key belongs to a DID of an unknown method or to a did:key that does not start so. Otherwise every row of a known DID ends with its reference and is otherwise unchanged: what follows did:key:, 0 for a did:jwk, and the id of the key after key- for a web DID, whatever the order of the updates |
| `KeyReferences.KeysKeepApart` | lib/migration/src/m20250728_090404_did_key_reference.rs:60 | Two keys of one web DID never share a reference |
| `KeyReferences.KeyDidTable.BuildMapping` | lib/migration/src/m20250728_090404_did_key_reference.rs:31-69 | Fails if and only if some DID has an unknown method or is a malformed did:key, and otherwise maps exactly the pairs in the table to their references |
| `TrustEntities.DuplicateIds` | lib/migration/src/m20250113_115815_trust_entity_unique_did.rs:45-71 | An entity is removed if and only if an earlier one has the same DID and anchor |
| `TrustEntities.OnePerCombination` | lib/migration/src/m20250113_115815_trust_entity_unique_did.rs:45-79 | Every combination that existed keeps exactly one entity |

## Left out

- Table definitions, indexes, recreation of tables and the early returns for Postgres: no behaviour beyond the statement itself.
- Database errors other than foreign key violations, and SQL collations. Texts are compared by code point, and LIKE patterns match their characters literally.
- Encodings of ids: ids are integers, or strings where they are ordered, and a fresh UUID is an unused id.
- Latest-state queries of the state history migrations, which are single SQL statements.
- Token decoding, key parsing, signature verification and HTTP are parameters, as is the clock. Waiting between retries is not modelled.
- The HTTP router, permissions and request handling around the token check would add easy members only.
- The builder and serialisation of credential queries, and the evaluation of a claim filter on a credential, which is a parameter of the meaning theorem.
- ContainerClaims.Database.Up: says of a credential with malformed claims only that its old rows stay and that it disturbs no other credential, because the source logs and skips it.
- CredentialSchemaDeletion.HardDelete: does not describe the tables after a failed run, because the source leaves undoing it to the surrounding transaction.
- DidRemoval.Remover.RemoveDidsAndRelated: does not describe the tables after a failed run, and has only the foreign keys into tables the removal deletes from.
- SdJwtMarking.Marker.ProcessCredentialSchema: states the exact marks, and with it SdJwtMarking.Marker.Up, for credential schemas without repeated keys and credentials without repeated paths, which is what the container migration leaves.
- DidIdentifiers.Database.Up: uses one time for all pages, while the source reads the clock once per page.
- RevocationEntries.Up: keeps the index as a number, while the source stores its decimal text, and leaves out the columns that are the same in every entry.
