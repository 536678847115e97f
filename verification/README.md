# Verified models of the PCloud core

Dafny models of the parts of PCloud that keep state, walk graphs, transform documents or compute
addresses, with proofs about every input, every run or every interleaving.

- `Tasks.dfy`, `EnvPlan.dfy`: task orchestration as a machine of atomic goroutine steps over trees
  of leaf, sequential and concurrent tasks, and the environment-creation plan with its shared record.
- `Leaks.dfy`, `Causes.dfy`: exactly which trees can leave a goroutine blocked for ever, and which steps
  of an interleaving what a task reports goes back to.
- `Memberships.dfy`: the group membership store, its recursive ancestor walk and its cycle check.
- `Derived.dfy`: deriving the values of an application from user input, and recovering the input
  from the persisted result.
- `Nebula.dfy`: the certificate controller with several workers, stale caches and write-once secrets.
- `Dns.dfy`, `DnsStore.dfy`: the TXT record store. The first file holds what the operations mean on
  lists, the second the in-place slice operations that are proved to compute it.
- `Repo.dfy`, `AppManager.dfy`: the kustomization tree with Install, Update and Remove. The first
  file holds the file tree as a value, the second the manager that rewrites it.
- `Upgrade.dfy`: the upgrade command, which joins the two models: every instance is recovered from its
  stored input, derived again and installed.
- `GraphQL.dfy`, `Schema.dfy`: injecting event objects into mutations, and extending the schema with
  event types.
- `Subnets.dfy`: allocating environment subnets and deriving the addresses of an environment.

Loops and methods that update state are methods proved equal to a specification function or
relation; the properties are then lemmas about that specification. `dafny verify dfyconfig.toml`
checks the project.

Where a property fails for the code, the code is modelled as it is, a lemma names an input that
shows the failure, and another gives the exact condition under which the property holds:

- Deleting TXT records while ranging over them panics or leaves a matching record behind when two
  matching records are neighbours or the last record is one of several that match
  (`DnsRecords.DeletesExactly`, `DnsRecords.DuplicateFaults`).
- String lists and networks with an empty name do not survive persistence, and number fields cannot
  be derived (`Derived.RoundTrip` with `Derived.ListLost` and `Derived.EmptyNetworkLost`,
  `Derived.DeriveSucceeds` with `Derived.NumberFails`).
- The upgrade reports success and empties the configuration of an instance on a network that the
  environment does not have, because rendering drops the error (`Upgrade.KeepsAppExactly`,
  `Upgrade.LostNetwork`); a first installation does the same for a number field (`Upgrade.FirstInstall`).
- Two concurrent calls can close a cycle of groups (`Memberships.TwoCallsExactly`,
  `Memberships.CrossedCalls`).
- The subnet allocator goes backwards from a third byte of 255 (`Subnets.FreshExactly`,
  `Subnets.ReusedSubnet`), and in-cluster DNS addresses meet environment subnets from the 11220th
  environment on (`Subnets.InClusterAvoids`).
- A CA or node whose status write failed after its secret was created stays unready for ever
  (`Nebula.ReadyExactly` and `Nebula.NodeReadyExactly`, with `Nebula.StuckIsReachable` and
  `Nebula.NodeCanGetStuck`). A Ready CA loses its secret only by an edit of the CA or a deletion of that
  secret (`Nebula.ReadyCASecured`, with `Nebula.EditedReadyCA` and `Nebula.DeletedSecret`), and a Ready
  node can carry a certificate that is not its CA's after a deletion of a secret of that name
  (`Nebula.ReadyNodeSecured`, with `Nebula.StaleCertificate`).
- A concurrent task that stops at an error leaves listeners blocked in their sends
  (`Leaks.LeaksExactly`, `Leaks.TwoLeavesLeak`).
- A server that generates object types nobody wrote keeps the schema from being closed
  (`SchemaExtension.ClosedExactly`, `SchemaExtension.UnwrittenType`), and one that does so for every type
  keeps it open for ever (`SchemaExtension.EveryRunStaysOpen`).

## Model

| member | source | states |
|---|---|---|
| `Tasks.StepInv` | core/installer/tasks/tasks.go:92-183 | Every atomic step of every goroutine (start, access, return, launch, send, receive, notify, status) keeps the invariant of the whole tree, and starts only tasks that were never started. |
| `Tasks.StepWeight` | core/installer/tasks/tasks.go:92-183 | Every step of every goroutine strictly decreases a weight fixed by the tree. |
| `Tasks.EveryRunEnds` | core/installer/tasks/tasks.go:92-183 | For every tree with non-empty sequential nodes, no interleaving is longer than the initial weight. |
| `Tasks.Progress` | core/installer/tasks/tasks.go:92-183 | A started task that is not finished always has an enabled step below it, one in which no leaf fails, so no parent waits for a message that cannot come. |
| `Tasks.NeverStuck` | core/installer/tasks/tasks.go:61-183 | In every reachable state with an unfinished root some step is enabled; when nothing can move, every started task has its final status. |
| `Tasks.EveryVerdict` | core/installer/tasks/tasks.go:61-183 | In every interleaving a finished root is Done if and only if every leaf function returned nil, and Failed only with an error that some leaf returned. |
| `Tasks.SequentialOrder` | core/installer/tasks/tasks.go:130-148 | While a sequential task runs, a started subtask has only predecessors whose start functions returned nil. |
| `Tasks.SequentialOutcome` | core/installer/tasks/tasks.go:130-152 | When a sequential task has returned: the subtasks up to one ran, all earlier ones returned nil, that one returned what the parent returned, later ones never started, exactly one message crossed the channel and no listener is left sending. |
| `Tasks.ConcurrentSuccess` | core/installer/tasks/tasks.go:158-183 | A concurrent task that returned nil received one nil from each of its subtasks, all of which returned nil. |
| `Tasks.ConcurrentFailure` | core/installer/tasks/tasks.go:167-179 | A concurrent task that returned an error received it as its last message, after nils only, from a subtask that returned it. |
| `Tasks.ConcurrentLeak` | core/installer/tasks/tasks.go:161-179 | Once nothing can move, exactly n - k listeners of a concurrent task with n subtasks that took k messages are stuck in their send. |
| `Tasks.Outcome` | core/installer/tasks/tasks.go:92-183 | At every node of the tree: the start function returns nil if and only if every leaf below it returned nil; otherwise its error is the error of one of them. |
| `Causes.LeafCause` | core/installer/tasks/tasks.go:92-102 | In every interleaving, the leaf at a place of the tree has returned an error or nil if and only if the interleaving holds the step in which that very leaf function returns it. |
| `Causes.ErrorCause` | core/installer/tasks/tasks.go:61-102 | The error with which a root fails is one that a leaf function returned, in a step of that interleaving. |
| `Causes.SuccessCause` | core/installer/tasks/tasks.go:61-102 | A root that is Done saw every leaf function of the tree return nil, in a step of its own. |
| `Leaks.CanFail` | core/installer/tasks/tasks.go:92-183 | Every task with a leaf below it has an interleaving in which it fails. |
| `Leaks.LeaksExactly` | core/installer/tasks/tasks.go:158-183 | Some interleaving of a tree leaves a goroutine blocked in its send for ever if and only if the tree has a concurrent task with two or more subtasks and a leaf below it. |
| `Leaks.TwoLeavesLeak` | core/installer/tasks/tasks.go:161-172 | The smallest case: two concurrent leaves have an interleaving that finishes with one listener blocked for ever. |
| `Leaks.PlanLeaks` | core/installer/tasks/env.go:55-61 | The environment-creation plan has such an interleaving. |
| `EnvPlan.StepCovered` | core/installer/tasks/tasks.go:92-183 | If every read of a task tree is preceded by its write in the static order, every step of every interleaving keeps the record filled as far as the finished tasks promise. |
| `EnvPlan.ReadsFilled` | core/installer/tasks/env.go:14-30 | A goroutine about to read a field of the shared record finds it written, whatever the interleaving did before. |
| `EnvPlan.NoRace` | core/installer/tasks/env.go:14-30 | In a race-free tree no two goroutines are ever both about to access a field that one of them writes. |
| `EnvPlan.SetupConfigRepoSafe` | core/installer/tasks/init.go:13-130 | The repository stage starts on an empty record, reads nothing before it is written, and leaves every field written. |
| `EnvPlan.SetupInfraReadOnly` | core/installer/tasks/infra.go:35-48 | The concurrent stage reads only fields that the earlier stages filled in, and writes none. |
| `EnvPlan.CreateEnvSafe` | core/installer/tasks/env.go:55-61 | The whole environment-creation plan passes the write-before-read check and the race check, starting from an empty record. |
| `EnvPlan.PlanIsSafe` | core/installer/tasks/env.go:45-61 | In every interleaving of the plan, every read of ssAdminKeys, ssClient, fluxUserName, keys, appManager or appsRepo comes after its write, and no two goroutines are about to make conflicting accesses. |
| `Memberships.InsertReach` | core/auth/memberships/main.go:308-317 | The exact effect of one more parent-child row on reachability: old paths, plus those that pass through the new row. |
| `Memberships.InsertAcyclic` | core/auth/memberships/main.go:308-317 | In an acyclic graph a new row keeps it acyclic if and only if the child is not already an ancestor of (or equal to) the parent. |
| `Memberships.RefusesExactlyCycles` | core/auth/memberships/main.go:290-326 | Between existing groups without that row, AddChildGroup accepts exactly the rows that keep the graph acyclic. |
| `Memberships.ApplyKept` | core/auth/memberships/main.go:115-486 | Each store call keeps the graph acyclic, rows between distinct existing groups, and at least one owner per group. |
| `Memberships.EveryRunKept` | core/auth/memberships/main.go:115-486 | In every serialised run of store calls from an empty database, with or without enforced foreign keys, those invariants hold. |
| `Memberships.AddChildDelta` | core/auth/memberships/main.go:290-432 | After adding (p, c) each user belongs to exactly the old groups plus, when c was among them, p and all its ancestors; removing the row next restores every table. |
| `Memberships.AddMemberDelta` | core/auth/memberships/main.go:219-229 | A new membership adds exactly the group and its ancestors to that user's transitive groups and nothing to anybody else's; removing it next restores every table. |
| `Memberships.RemoveMemberDelta` | core/auth/memberships/main.go:434-457 | After a removal a user belongs to exactly what is reachable from the groups of the remaining membership rows. |
| `Memberships.ApplyRow` | core/auth/memberships/main.go:115-486 | Each accepted call makes the rows it is for, with their descriptions, removes the one row it names, and touches no other row of any table. |
| `Memberships.EveryRowMade` | core/auth/memberships/main.go:115-486 | In every serialised run from empty tables, each of the five tables holds a row if and only if some accepted call that is for it made it and no later accepted call removed that row. |
| `Memberships.AcceptsExactly` | core/auth/memberships/main.go:184-486 | Apart from initialisation and the last-owner rule, a call is accepted if and only if the rows it makes are new, the row it removes is there, and the tables after it keep the invariants and any enforced foreign keys. |
| `Memberships.TwoCallsExactly` | core/auth/memberships/main.go:308-317 | Two calls that are both checked before either inserts close a cycle if and only if each child is reachable from the other call's parent. |
| `Memberships.CrossedCalls` | core/auth/memberships/main.go:308-317 | Two unrelated groups made children of each other in that way close a cycle, although both calls are accepted. |
| `Memberships.SqliteStore.QueryGroups` | core/auth/memberships/main.go:146-164 | Returns each selected group once, with its description. |
| `Memberships.SqliteStore.GetGroupsUserBelongsTo` | core/auth/memberships/main.go:175-182 | Returns, without duplicates, exactly the existing groups the user is a direct member of. |
| `Memberships.SqliteStore.GetGroupsGroupBelongsTo` | core/auth/memberships/main.go:368-391 | Returns, without duplicates, exactly the existing direct parents of the group. |
| `Memberships.SqliteStore.GetAllParentGroupsRecursive` | core/auth/memberships/main.go:349-366 | The recursive walk over a shared visited set terminates on every graph, cyclic or not, and returns without duplicates exactly the groups reachable from its start list outside the initially visited ones. |
| `Memberships.SqliteStore.GetAllTransitiveGroupsForUser` | core/auth/memberships/main.go:328-335 | Returns exactly the reachability closure of the user's direct groups, once each. |
| `Memberships.SqliteStore.GetAllTransitiveGroupsForGroup` | core/auth/memberships/main.go:337-347 | Returns exactly the proper ancestors of the group, once each. |
| `Memberships.SqliteStore.IsAncestor` | core/auth/memberships/main.go:308-316 | The scan that AddChildGroup makes finds the child if and only if it is a proper ancestor of the parent. |
| `Memberships.SqliteStore.AddChildGroup` | core/auth/memberships/main.go:290-326 | Succeeds exactly when both groups exist, the row is new and the child is not reachable from the parent; the tables gain that row or stay as they were, and the invariants hold. |
| `Memberships.SqliteStore.RemoveFromGroupToGroup` | core/auth/memberships/main.go:418-432 | Succeeds exactly when the row exists; removes that row and keeps the invariants. |
| `Memberships.SqliteStore.CreateGroup` | core/auth/memberships/main.go:184-203 | Adds the group and its owner together or neither; keeps the invariants. |
| `Memberships.SqliteStore.RemoveOwner` | core/auth/memberships/main.go:434-457 | Refuses to remove the last owner or an owner who is not one; otherwise removes exactly that row. |
| `Memberships.SqliteStore.RemoveMember` | core/auth/memberships/main.go:434-457 | Removes exactly that membership row, or fails when there is none. |
| `Memberships.SqliteStore.AddGroupMember` | core/auth/memberships/main.go:219-229 | Adds the row unless it exists (or the group is missing while foreign keys are enforced). |
| `Memberships.SqliteStore.AddGroupOwner` | core/auth/memberships/main.go:231-241 | Adds the row unless it exists (or the group is missing while foreign keys are enforced). |
| `Memberships.SqliteStore.AddOwnerGroup` | core/auth/memberships/main.go:459-486 | Adds the row between two distinct existing groups unless it exists. |
| `Memberships.SqliteStore.Init` | core/auth/memberships/main.go:115-144 | Fills an empty store with the named groups, owned and joined by the owner; a repeated name or an existing row rolls everything back. |
| `Derived.DeriveSucceeds` | core/installer/derived.go:55-118 | For every well-typed input deriving never panics, and succeeds if and only if no number field is present. |
| `Derived.RoundTrip` | core/installer/derived.go:55-188 | For every schema, network list and well-typed input: recovering from the persisted derived values gives the completed input if and only if no list is present and no network with an empty name is chosen; otherwise it fails. |
| `Derived.CompleteAt` | core/installer/derived.go:63-74 | The completed input is, field by field, the input restricted to the schema, plus the generated SSH keys where they were missing. |
| `Derived.DerivedAt` | core/installer/derived.go:55-118 | Field by field, the derived values hold the whole of the first network of the chosen name, the generated key pair with each half in its place, a plain value as it was given, a nested value derived in turn, and nothing for any other missing field. |
| `Derived.StoredNetwork` | core/installer/derived.go:15-21 | A stored network has each of its non-empty entries under its own key and nothing else. |
| `Derived.AuthKept` | core/installer/schema.go:36-43 | Both settings of an authentication field survive deriving and recovering. |
| `Derived.Rederived` | core/installer/derived.go:55-118 | Deriving the completed input again persists the same values, whatever keys the generator would make now. |
| `Derived.RecoveredDerives` | core/installer/derived.go:55-188 | Values recovered from whatever was stored can be derived again if and only if every network field names one of the networks; deriving them panics only if some network field holds no name. |
| `Derived.StoredAgain` | core/installer/derived.go:47-188 | For one instance: recovering the stored values and deriving them again stores what was stored before. |
| `Derived.NumberFails` | core/installer/derived.go:113-115 | A number field makes deriving fail, whatever the number. |
| `Derived.ListLost` | core/installer/derived.go:137-142 | Any list of strings is derived and stored, and recovering it then fails. |
| `Derived.EmptyNetworkLost` | core/installer/derived.go:143-152 | So does recovering the choice of a network with an empty name. |
| `Derived.FindNetworkLoop` | core/installer/derived.go:190-197 | Finds a network of that name in the list, or there is none; the first one, as the derivation needs it. |
| `Derived.DeriveValues` | core/installer/derived.go:55-118 | The loop over the fields computes the derivation on which the theorems are proved, including every error and panic. |
| `Derived.DerivedToConfig` | core/installer/derived.go:120-188 | The loop over the fields computes the recovery on which the theorems are proved, including every error. |
| `Upgrade.UpgradeAll` | core/installer/cmd/rewrite.go:68-92 | The loop over all instances, with its errors, the panic of InputToValues and the derivation error that rendering drops, computes the rewriting of the file tree that the lemmas are about. |
| `Upgrade.UpgradeRefines` | core/installer/cmd/rewrite.go:77-90 | From every tree that looks like a registry, the upgrade has the same outcome on the tree as on the registry, and the tree looks like the resulting registry. |
| `Upgrade.UpgradeKeepsExactly` | core/installer/cmd/rewrite.go:77-90 | The upgrade succeeds and leaves every instance, its place in the list and its configuration as they were, if and only if the plan for each of them reinstalls the configuration it has, without forbidden data. |
| `Upgrade.UpgradeKeeps` | core/installer/cmd/rewrite.go:77-90 | It does so when every stored input came from deriving well-typed values that are not lost, and still renders, whatever keys would be generated now. |
| `Upgrade.UpgradedFiles` | core/installer/cmd/rewrite.go:81-90 | Upgrading an instance whose plan reinstalls its own configuration leaves in its directory exactly the data and resources that this release renders from the stored input, every file with its contents and every resource listed. |
| `Upgrade.PlanRenders` | core/installer/app.go:677-697 | A plan that keeps the application carries exactly what rendering made of the input it stores. |
| `Upgrade.StopsUpgrade` | core/installer/cmd/rewrite.go:82-86 | An instance of an unknown application stops the upgrade with an error, and one whose stored values held a list or an unnamed network crashes it; neither changes a file. |
| `Upgrade.StopsThere` | core/installer/cmd/rewrite.go:81-90 | Such an instance keeps every later one from being touched. |
| `Upgrade.KeepsAppExactly` | core/installer/app.go:671-676 | An iteration that reports success leaves the instance with its application in config.json if and only if every network that its stored input names is one of the environment's; otherwise it leaves the empty configuration. |
| `Upgrade.LostNetwork` | core/installer/app.go:671-676 | In any readable repository, with any list of networks that lacks the one an instance is on, the upgrade of that instance reports success and leaves the empty configuration. |
| `Upgrade.OnlyTwoNetworks` | core/installer/app_manager.go:346-362 | The networks of every environment lack exactly the names other than Public and Private. |
| `Upgrade.FirstInstall` | core/installer/app.go:671-676 | A first installation of well-typed values lists the instance and reports success either way, but stores the application if and only if no number field is present; otherwise the empty configuration. |
| `Nebula.StepInv` | core/nebula/controller/controllers/ca.go:164-281 | Every API call of every worker on arbitrarily stale reads, and every user action, keep that one version is one object and that workers hold copies that were once current and not Ready. |
| `Nebula.ReadyCASecured` | core/nebula/controller/controllers/ca.go:164-204 | In every run, whatever users do to everything else, a Ready CA names a secret that the controller created for it, unless somebody edited that CA while it was Ready or deleted that secret. |
| `Nebula.ReadyNodeSecured` | core/nebula/controller/controllers/ca.go:206-265 | In every run, whatever users do to everything else, a Ready node names a secret created for it that carries the ca.crt of its CA, which is Ready and has its own secret, unless somebody edited the node or touched the CA while they were Ready, or deleted the node's secret or a secret of the CA's name. |
| `Nebula.EverySecretMade` | core/nebula/controller/controllers/ca.go:185-198 | In every run, every secret ever seen was made by one of its steps: a CA's in the CA's namespace under the name it read, with exactly the private key as ca.key and the certificate as ca.crt of a Create for that CA; a node's with exactly host.key, host.crt and the ca.crt its worker signed with; any other by a user. |
| `Nebula.EverySignatureRead` | core/nebula/controller/controllers/ca.go:230-244 | What a worker signs a node with is the ca.crt of a secret that it read, in an earlier step, under the name of the node's CA. |
| `Nebula.ReadyNodeCertificate` | core/nebula/controller/controllers/ca.go:206-265 | Under the conditions of ReadyNodeSecured the ca.crt of a Ready node is the certificate that some Create of the run stored for the node's CA. |
| `Nebula.NodeStateStep` | core/nebula/controller/controllers/ca.go:230-264 | The state of a node changes only to Ready, by the worker that created the secret for its current copy, or to Error, by one that did not find the CA secret. |
| `Nebula.ReadyStays` | core/nebula/controller/controllers/ca.go:177-180 | From every state of the invariant a Ready CA stays as it is until somebody edits or deletes that very CA. |
| `Nebula.WrittenOnce` | core/nebula/controller/controllers/ca.go:185-198 | From every state and over every run, edits and deletions of anything else included, a secret keeps its content until it is deleted itself. |
| `Nebula.EditedReadyCA` | core/nebula/controller/controllers/ca.go:177-180 | Editing the secret name of a Ready CA leads to a Ready CA without a secret. |
| `Nebula.DeletedSecret` | core/nebula/controller/controllers/ca.go:177-180 | So does deleting its secret. |
| `Nebula.StaleCertificate` | core/nebula/controller/controllers/ca.go:230-255 | A secret of the CA's name that was deleted before the CA existed can be read from a stale cache: the node then becomes Ready with a certificate that is not its CA's. |
| `Nebula.StuckForever` | core/nebula/controller/controllers/ca.go:195-202 | When a CA's secret exists but its status write failed, no run makes the CA Ready, whatever happens to anything but that CA and that secret. |
| `Nebula.ReadyExactly` | core/nebula/controller/controllers/ca.go:164-204 | An unready CA has a run that makes it Ready without anybody touching it or its secret, if and only if it is not in that situation. |
| `Nebula.StuckIsReachable` | core/nebula/controller/controllers/ca.go:195-202 | For every CA there is a run that ends in that situation. |
| `Nebula.NodeStuckForever` | core/nebula/controller/controllers/ca.go:256-263 | The same for a node whose status write failed after its secret was created: nothing that happens to other objects makes it Ready. |
| `Nebula.NodeReadyExactly` | core/nebula/controller/controllers/ca.go:206-265 | Any unready node has a run that makes it Ready without anybody touching it or its secret, if and only if it is not stuck. |
| `Nebula.NodeCanGetStuck` | core/nebula/controller/controllers/ca.go:256-263 | From every state of the invariant, any unready node without a secret has a run that ends stuck. |
| `DnsRecords.DeletesExactly` | core/dns-api/records_file.go:35-48 | The loop that deletes while it ranges ends without a panic and leaves exactly the records that do not match, if and only if no two matching records are neighbours and the last record does not match together with an earlier one. |
| `DnsRecords.UniqueIsSafe` | core/dns-api/records_file.go:35-48 | In a zone whose TXT records are pairwise different the loop never slices out of bounds and is the filter. |
| `DnsRecords.DuplicateFaults` | core/dns-api/records_file.go:35-48 | Two equal TXT records make the loop panic when one of them is last, neighbours or not; as neighbours before another record, one of them survives. |
| `DnsRecords.AddedOrder` | core/dns-api/records_file.go:62-84 | Adding puts the record last and keeps all other records in their order. |
| `DnsRecords.AddedPairs` | core/dns-api/records_file.go:62-84 | Adding is set insertion on the (name, joined value) pairs of the zone. |
| `DnsRecords.AddedUnique` | core/dns-api/records_file.go:62-84 | Adding keeps TXT records pairwise different. |
| `DnsRecords.AddServes` | core/dns-api/store.go:36-47 | After an addition the last record is the TXT record whose name is the entry, a dot, the zone and a dot, with the text as its only part; a new one has TTL 300, an old one keeps its own. |
| `DnsRecords.WithoutPairs` | core/dns-api/records_file.go:35-48 | The filter is set removal on the (name, joined value) pairs. |
| `DnsRecords.SerialAdvances` | core/dns-api/init.go:144-146 | The wrapped serial written at t2 is greater, in the sense of section 3.2 of RFC 1982, than the one written at t1 if and only if 10(t2 - t1) modulo 2^32 lies strictly between 0 and 2^31; in particular whenever 0 < 10(t2 - t1) < 2^31. |
| `DnsRecords.StampKeeps` | core/dns-api/records_file.go:100-112 | After a write every SOA carries the new serial, the TXT records are the same set and as unique as before, and the other records keep their order and, but for the serial, their content. |
| `DnsRecords.ServedRefines` | core/dns-api/store.go:36-58 | From any zone without duplicates, one Add or Delete keeps it so and acts on the set of pairs as insertion or removal, leaving all other records in place but for the new serial of every SOA. |
| `DnsRecords.EveryRunRefines` | core/dns-api/store.go:36-58 | Starting from a zone without TXT records, after every run of the store the TXT records are exactly the set that the calls describe, without duplicates, all other records are in order, no deletion can fault, and every SOA carries the serial of the last call. |
| `DnsRecords.Template` | core/dns-api/init.go:37-49 | The initial zone starts with its only SOA, which carries the current serial, followed by one address record per name server, three per public address and one for the private address, and no TXT record. |
| `DnsRecords.TemplateRecords` | core/dns-api/init.go:37-49 | Name server i has the address record of ns(i+1), every public address those of the zone and its two wildcards, and the private address that of the wildcard under p, in this order. |
| `DnsRecords.TemplateRuns` | core/dns-api/init.go:69-84 | From the initial zone, after every run of the store the TXT records are exactly the set that the calls describe and the records of the template are in order. |
| `DnsStore.RecordsFile.DeleteTxtRecord` | core/dns-api/records_file.go:35-48 | The in-place loop, ranging over the slice header it started with, panics exactly when the specification faults and otherwise leaves exactly the swept records. |
| `DnsStore.RecordsFile.CreateOrReplaceTxtRecord` | core/dns-api/records_file.go:62-84 | Moves the first equal record to the end or appends a new one with TTL 300, in place. |
| `DnsStore.RecordsFile.Write` | core/dns-api/records_file.go:100-112 | Writes the records with every SOA stamped, in place and in the file. |
| `DnsStore.FsRecordStore.Add` | core/dns-api/store.go:36-47 | One read-modify-write: the file becomes what the specification of the store serves. |
| `DnsStore.FsRecordStore.Delete` | core/dns-api/store.go:49-58 | The same for a deletion; a panic leaves the file as it was. |
| `Repo.Kustomization.AddResources` | core/installer/io/kustomization.go:36-42 | Appends each name that is not listed yet, keeping the earlier entries in order. |
| `Repo.Kustomization.RemoveResources` | core/installer/io/kustomization.go:44-53 | Removes the first occurrence of each name. |
| `Repo.RemoveDistinct` | core/installer/io/kustomization.go:44-53 | On a list without duplicates this removes exactly the name and keeps the order of the rest. |
| `Repo.ChainAt` | core/installer/app_manager.go:149-169 | When every kustomization on the way can be read, the walk leaves each ancestor directory listing its next path component, appended only if it was missing, with the earlier entries in order. |
| `Repo.ChainFrame` | core/installer/app_manager.go:149-169 | The walk changes no file but the kustomizations of the ancestors. |
| `Repo.ChainIdempotent` | core/installer/app_manager.go:149-169 | Walking again changes nothing, even when the walk stops at a broken kustomization. |
| `Repo.InstallFrame` | core/installer/app_manager.go:191-242 | Installing one instance leaves every file of every other instance as it was. |
| `Repo.InstallOutside` | core/installer/app_manager.go:191-242 | Installing changes no file outside the directory of the instance but the kustomizations above it. |
| `Repo.InstalledResource` | core/installer/app_manager.go:225-235 | A successful installation writes every resource with its contents. |
| `Repo.InstalledLists` | core/installer/app_manager.go:221-238 | It lists exactly the names of the resources, once each and in their order, and the kustomization of the instance lists exactly the resources directory. |
| `Repo.InstalledData` | core/installer/app_manager.go:206-218 | Successful or not, an installation writes every data file before the first forbidden name with its contents. |
| `Repo.InstalledYaml` | core/installer/app_manager.go:200-202 | The configuration is also stored as YAML, unless the data bring a file of that name. |
| `Repo.InstalledOnly` | core/installer/app_manager.go:192-238 | Nothing else lies under the directory of the instance afterwards. |
| `Repo.InstalledConfig` | core/installer/app_manager.go:199-205 | After an installation, failed or not, the instance has the configuration it was given. |
| `Repo.InstalledListing` | core/installer/app_manager.go:206-223 | A successful installation lists the instance once; one stopped by a forbidden data name leaves the list alone. |
| `Repo.RemovedEffect` | core/installer/app_manager.go:328-343 | Removing takes the name off the list and leaves no file under the directory. |
| `Repo.RemovedOutside` | core/installer/app_manager.go:328-343 | Removing changes no file outside that directory but the list. |
| `Repo.RemovedFrame` | core/installer/app_manager.go:328-343 | Removing one instance leaves every file of every other instance as it was. |
| `Repo.StepRefines` | core/installer/app_manager.go:245-343 | Install, Update and Remove act on the file tree as on a registry of listed instances and configurations, and do nothing without the configuration of the environment. |
| `Repo.EveryRunRefines` | core/installer/app_manager.go:245-343 | After every run of these calls, from every tree that looks like a registry, the list has no duplicates, every listed instance has its configuration, and both are exactly what the calls make of that registry. |
| `Repo.ConsistentExactly` | core/installer/app_manager.go:56-72 | A tree looks like a registry if and only if no kustomization down to the root is broken and the list has no duplicates and only instances with configurations. |
| `Repo.FreshRefines` | core/installer/app_manager.go:38-45 | A readable tree with no list and no instance looks like an empty registry, with or without an environment. |
| `Repo.NewEnvironmentRefines` | core/installer/tasks/infra.go:50-115 | However much of the environment commit was done, whose error is dropped, the repository of a new environment looks like an empty registry, with an environment exactly when its configuration was written. |
| `Repo.NoEnvironment` | core/installer/app_manager.go:245-326 | Without an environment no run of installations and updates does anything. |
| `Repo.EveryRunFinds` | core/installer/app_manager.go:56-72 | After every run from every consistent tree, looking up all instances succeeds if and only if the list was there at the start or some call of the run succeeded. |
| `AppManagement.AppManager.CreateKustomizationChain` | core/installer/app_manager.go:149-169 | The loop computes the walk, one iteration per path component, and fails exactly when a file on the way is not a kustomization, leaving what it wrote below. |
| `AppManagement.AppManager.InstallApp` | core/installer/app_manager.go:181-242 | From any tree: clears the directory, writes configuration and data up to a forbidden name, extends the chain up to a broken kustomization and writes the resources; the tree becomes the one the lemmas are about and success is reported exactly when nothing stopped it. |
| `AppManagement.AppManager.Install` | core/installer/app_manager.go:245-277 | Fails without a change when the environment has no configuration; otherwise installs into root/instanceId. |
| `AppManagement.AppManager.Update` | core/installer/app_manager.go:301-326 | Fails without a change when the environment or the instance has no configuration; otherwise installs again. |
| `AppManagement.AppManager.Remove` | core/installer/app_manager.go:328-343 | The directory goes first, then the listing; fails exactly when there is no list. |
| `AppManagement.AppManager.FindAllInstances` | core/installer/app_manager.go:56-72 | Returns the listed instances in order with their configurations, or fails exactly when the list or a configuration is missing. |
| `GraphQL.RewriteSucceeds` | core/api/schema/dgraph_schema_store.go:254-285 | Rewriting a value panics if and only if some eligible object, at any depth, lacks its event definitions. |
| `GraphQL.RewriteAt` | core/api/schema/dgraph_schema_store.go:206-285 | At every place of the original value the rewritten one has the same node with the same children in order, plus exactly one child at the end if and only if the node is an eligible input object: a list named events of one object of the type's event input, whose only entry is the enum state NEW of type EventState. |
| `GraphQL.RewriteSpares` | core/api/schema/dgraph_schema_store.go:274-283 | Nothing is injected into a node that is no input object or whose type ends in Event, EventInput, Ref, Filter or Patch. |
| `GraphQL.SparedSucceeds` | core/api/schema/dgraph_schema_store.go:274-283 | Such a node needs no event definition: rewriting it succeeds exactly when it does for its children. |
| `GraphQL.EraseUndoes` | core/api/schema/dgraph_schema_store.go:254-285 | Taking the last child off every eligible object of the rewritten value gives back the original. |
| `GraphQL.EventsAreSkipped` | core/api/schema/dgraph_schema_store.go:198-253 | Nothing inside an injected event list is eligible itself. |
| `GraphQL.DocumentRoundTrip` | core/api/schema/dgraph_schema_store.go:287-304 | Operations other than mutations are unchanged, and erasing the injected children gives back the document. |
| `GraphQL.DocumentSucceeds` | core/api/schema/dgraph_schema_store.go:287-304 | A document is rewritten without a panic if and only if every mutation selects fields only and all their arguments are ready. |
| `GraphQL.DocumentAt` | core/api/schema/dgraph_schema_store.go:297-299 | Every argument of every field of every mutation is rewritten, in its place and under its name. |
| `GraphQL.RewriteValue` | core/api/schema/dgraph_schema_store.go:254-285 | The recursive loop over the children computes the rewriting, panics included. |
| `GraphQL.RewriteQuery` | core/api/schema/dgraph_schema_store.go:287-304 | The loop over the operations computes the rewriting of the document, panics included. |
| `SchemaExtension.ExtendSchema` | core/api/schema/dgraph_schema_store.go:159-187 | Fails exactly when the parser rejects the text or a name would be defined twice; otherwise returns the old text, the addition, and one event template for each type that needs one, in any order of the map. |
| `SchemaExtension.TemplatesExactly` | core/api/schema/dgraph_schema_store.go:307-314 | A template is written for exactly the object types without an event type that are not Query or Mutation, do not start with two underscores and do not end in Payload or Event. |
| `SchemaExtension.EmptyAddition` | core/api/schema/dgraph_schema_store.go:175-185 | Extending with nothing appends nothing if and only if every type that is not ignored has its event type. |
| `SchemaExtension.AddIsUnique` | core/api/schema/dgraph_schema_store.go:159-187 | The text that an addition sends to the server defines nothing twice, whatever else the server generates. |
| `SchemaExtension.AddIsClean` | core/api/schema/dgraph_schema_store.go:175-185 | Nor does it hold an event type of an event type. |
| `SchemaExtension.ClosedExactly` | core/api/schema/dgraph_schema_store.go:175-185 | Whatever the server generates, after one addition every event type is there if and only if it is there for the generated types outside the text and for the types whose event type the server had before. |
| `SchemaExtension.UnwrittenType` | core/api/schema/dgraph_schema_store.go:175-185 | If the server generates an object type that nobody wrote, extending with nothing appends its event type. |
| `SchemaExtension.NeverClosed` | core/api/schema/dgraph_schema_store.go:175-185 | With a server that generates an object type for every object type of the text, no schema with an object type of its own is closed. |
| `SchemaExtension.EveryRunStaysOpen` | core/api/schema/dgraph_schema_store.go:62-69 | In every run of additions with such a server the schema is never closed, and every empty addition appends something. |
| `SchemaExtension.AddCompletes` | core/api/schema/dgraph_schema_store.go:159-187 | With a server that generates besides the text only what is ignored, after one addition every type that is not ignored has exactly one event type and no event type has one. |
| `SchemaExtension.EveryRunCompletes` | core/api/schema/dgraph_schema_store.go:62-69 | With such a server the same holds after every run of additions, and extending with nothing then appends nothing. |
| `SchemaExtension.DgraphClient.AddSchema` | core/api/schema/dgraph_schema_store.go:62-117 | With any server: a successful call sends the extended text and keeps the text and the schema that the server answers with; a failed one leaves the client as it was. |
| `Subnets.FindNextStartIP` | core/installer/welcome/env.go:419-447 | For every list: fails if an entry is no address; otherwise answers with the address after the greatest of 10.0.0.0 and the entries, IPv4 below IPv6, or fails when the second byte reaches 255. |
| `Subnets.GreatestUnique` | core/installer/welcome/env.go:424-432 | That greatest address is unique. |
| `Subnets.FreshExactly` | core/installer/welcome/env.go:433-441 | From any list of IPv4 addresses the new /24 lies above every recorded one if and only if neither the third nor the second byte wraps around. |
| `Subnets.ReusedSubnet` | core/installer/welcome/env.go:433-441 | A recorded 10.0.255.0 makes the allocator hand out 10.0.0.0 again. |
| `Subnets.EnvServer.Allocate` | core/installer/welcome/env.go:355-369 | One request answers from the recorded list and appends exactly what it answered. |
| `Subnets.EveryRun` | core/installer/welcome/env.go:355-369 | In every run from an empty list request n gets 10.(n/255).(n%255).0 for n up to 65024, and every later request fails. |
| `Subnets.NewEnvNetwork` | core/installer/app.go:427-468 | The three errors, each exactly when it applies; otherwise dns .1, ingress .2, headscale .3, services .10 to .254, and 10.44 with the two middle bytes inside the cluster. |
| `Subnets.Next` | core/installer/app.go:435-437 | The address after an address, as a number one greater. |
| `Subnets.UsesDisjoint` | core/installer/app.go:427-468 | Within and across all environments, no address is in two of the dns, ingress, headscale and service ranges. |
| `Subnets.InClusterInjective` | core/installer/app.go:451-458 | No two environments share their in-cluster DNS address. |
| `Subnets.InClusterAvoids` | core/installer/app.go:451-458 | The in-cluster DNS addresses of the first n environments avoid all their subnets if and only if n <= 11219. |

## Left out

- Tasks: task objects are values in a tree and one step is one atomic action; aliasing of task objects, torn reads of `status` by the user interface and the beforeStart and afterDone hooks are not modelled. A task is started once by its parent, as the constructors arrange.
- Tasks: leaf functions are assumed to return; the DNS, HTTP and Helm polling loops are leaves.
- EnvPlan: a leaf is the list of its accesses to the six fields that start out empty, in program order, and may fail between any two; what it does with them is not modelled. Several reads of one field in a row may be one access.
- Memberships: a store call is one step. The cycle check and the insertion are separate statements in the program; the run theorems are about serialised runs, and `Memberships.TwoCallsExactly` about two calls that are not. Database failures other than constraint violations, the read-only queries about owners and members, the HTTP handlers and their ownership guard are not modelled.
- Memberships.SqliteStore.GetAllParentGroupsRecursive: requires that parent-child rows mention existing groups, which every run keeps, because the join would drop rows that do not.
- Derived: numbers persist exactly, key generation is a function of the field's path and always succeeds, and the schema tree is given; CUE evaluation and schema inference are not part of this model.
- Nebula: the work queue is replaced by letting any worker take up any key at any time, which allows more runs than the queue does. Certificates are opaque strings. Steps act on values, not on objects.
- Nebula.ReadyNodeSecured: excludes every deletion of a secret of the CA's name, also of one that somebody else had made, because a stale cache may still show it.
- DnsStore: reading and writing the zone text is exact, so escaping, case and TXT splitting of the zone format are left out; so are file system errors, concurrent requests to one store (each is one step), CreateARecord and DNSSEC key files.
- AppManagement: files are a map from paths, so a file where a directory is needed, or an instance that is called kustomization.yaml, does not fail as it would on disk. Instance ids, data names and resource names are single path components; appDir is root/instanceId, as all callers pass it. Git commits, pulls and pushes, other writers, namespaces, port opening and failing file operations are not modelled.
- Repo: of an instance configuration only the application and the derived input are modelled; the values as entered, URL, help and icon are not.
- Upgrade: rendering an application from its JSON input is a function that may fail; CUE evaluation is not part of this model. Files other than configurations and lists are rewritten by each reinstallation and not compared with what was there.
- GraphQL: nodes are updated as values rather than in place, so sharing of one node between two parents is not modelled. Parsing, validation and formatting of documents are not part of this model; definitions are set on every object, as validation leaves them.
- SchemaExtension: a schema text is a list of definitions; fields and directives are left out, and whether the parser accepts the text otherwise is a parameter.
- SchemaExtension.AddCompletes: for a server whose generated schema holds besides the text only definitions that are ignored and not named like events; `SchemaExtension.ClosedExactly` is for any server.
- SchemaExtension.EveryRunCompletes: for the same servers.
- Subnets: reading and writing the list file and naming environments are left out; allocation is one step.
- The port allocator, the URL shortener, the key-value user store, the application repository loader and the event processor have one-map or one-branch properties only.
- Kubernetes, Git, SSH, HTTP, templates, the user interfaces and generated clients are input and output.
