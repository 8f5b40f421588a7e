# AutoPXE: a verified model

AutoPXE installs machines over the network.  A DHCP server hands out addresses and boot
files, an agent on the booted machine reports to a small subset of the Ironic API and is
told to write the disk image, and a DNS server answers for deployed machines.  This project
models the parts of it that keep state and proves what they keep.

- **The lease allocator** (`LeaseAllocator`) is a class with the four maps of the original,
  updated in place, map loops that visit keys in arbitrary order, a 32-bit scan and a lease
  file whose replacement may fail.  `LeaseModel` holds the functions that specify it.
- **Whole runs** (`LeaseRuns`, `LeaseStructure`, `LeaseQuarantine`, `LeaseTable`,
  `LeaseAccounting`): any operations in any order, saves that fail, a clock that moves
  forward, crashes and restarts at any point, and the maintenance command that clears the
  file from another process.  `LeaseProcess` proves that the class takes exactly these
  steps.  `LeaseLimits`, `LeaseFiles` and `LeaseClearing` say exactly where the guarantees
  end: `LeaseSafety` defines the lease files and tables from which no address is ever
  acknowledged to two MACs at once and proves that every step keeps them so, `LeaseSharing`
  builds runs that acknowledge one address twice.
- **The deploy protocol** (`Node`, `Driver`, `Deploy`, `DeploySteps`, `Store`, `Ironic`): a
  step machine per node over every interleaving of heartbeats, driver steps and agent answers,
  and the driver and the polling loop as methods on node objects, proved to be its runs.
- **The deployed gate** (`Tracker`, `DhcpServer`, `Fleet`, `FleetGate`, `FleetHazard`): from an
  agent's lookup through its deployment and the state file to the DHCP reply, with the
  maintenance commands as processes that load the file when they start and save it when they
  end.  `FleetProcess` proves that registry, nodes and trackers take these steps.
- **DNS** (`DnsNames`, `DnsServer`, `DnsAgreement`): tables, choice of a forwarder, forward and
  reverse answers and exactly when they agree.

`dafny verify dfyconfig.toml` checks everything.

## Assumptions

- The configuration does not change over a run, static and pool addresses are IPv4, the
  lease time is positive.
- The clock does not go backwards, also not over restarts.  Times are whole numbers; the
  unit does not matter to the allocator, the driver counts seconds.
- A rename replaces a file in one step or not at all, and a record written as JSON is read
  back as the same record.
- Random node identifiers do not repeat.
- No two processes save one file at the same moment (the temporary file has a fixed name), so
  a save is one step.  The load and the save of a maintenance command are two.
- A method that holds a mutex throughout is one step.  Clock readings, whether a write
  succeeds and what the agent answers are parameters.

## Where the code falls short of what is said about it

- `canon` is not idempotent on a hyphen or dot spelling with spaces around it
  (`MacText.CanonIdempotentIff`); such a client loses its address over a restart
  (`LeaseLimits.PaddedLosesAddress`).  The DHCP handler never produces such a text
  (`DhcpServer.PacketsAreProper`).
- A lease file written by hand can break exclusivity, and `LeaseFiles.FileSharesIff` says
  exactly which.  One kind has two live records that give one MAC two addresses: two spellings
  of it leave a stale address entry (`LeaseInvariants.LoadBackedIff`), with which a decline
  evicts the holder of another address (`LeaseLimits.DeclineEvictsOnlyHolderIff`), and after a
  restart that address is acknowledged to someone else while its first grant still runs
  (`LeaseFiles.ClashShares`).  The other has a live record under a padded key whose second
  `canon` form is not a static MAC and can hold a second address beside it: that of another
  record with that second form (`LeaseFiles.TwinsShare`) or one that a server started in time
  can hand out (`LeaseFiles.RoomShares`).  A save then writes the first kind.  At each single
  moment the leases in memory have distinct addresses whatever the file
  (`LeaseRuns.RobustUniqueness`).
- Two static bindings may share an address, so exclusivity exempts a pair of static MACs.
  From a safe world that is the only way for two MACs to hold one live acknowledged address
  (`LeaseLimits.StaticsShareIff`).
- `-clear-leases` beside a running server edits the file behind it.  The next save for
  whatever client writes the cleared leases back (`LeaseClearing.ClearedBackIff`).
- A stale address entry is never reaped: its address is lost until it is declined or the
  server restarts (`LeaseAccounting.StaleIsLost`).
- The package comment of `internal/dns/server.go` (lines 5-8) says that dynamic pool nodes
  also resolve.  The code only walks the static bindings, whose lookup always returns the
  bound address (`DnsServer.HostsAreStatic`).
- A DNS name with two addresses, or a static record with the name of a deployed host, can make
  forward and reverse answers disagree (`DnsAgreement.AgreementIff` says exactly when).
- A driver started by a heartbeat without callback URL leaves its node in state new for
  good (`Driver.NoUrlForever`).
- A forget command edits the file behind the running server, whose next mark, of any node,
  writes the forgotten record back (`FleetGate.ForgottenUntilNextMark`).
- A forget command also writes away what the server recorded since the command loaded the
  file: a machine deployed in that time loses its record, and after a restart of the server it
  is offered boot files again, unless it was recorded anew (`FleetGate.RecordHoldsIff`,
  `FleetGate.StaleSaveOpens`, `FleetHazard.RecordCanBeLost`).
- `internal/node/store.go` (lines 48-51) says that every MAC is indexed so that lookups via any
  of them find the same node.  A lookup that matches a known node drops the MACs it lists for
  the first time (`Store.LookupCovers`); they are not recorded with the node's deployment and
  stay ungated (`FleetGate.ListedRecordedIff`, `FleetGate.LateMacStaysOpen`).

## Model

| member | source | states |
|---|---|---|
| `LeaseAllocator.Allocator.constructor` | internal/lease/lease.go:68-99 | the keys of the table are exactly the lower-case MACs of the bindings; the last binding of a key gives address, hostname, gateway and name servers, the last two else the configured defaults; the pool tables are empty |
| `LeaseAllocator.Allocator.New` | internal/lease/lease.go:68-114 | construction fails exactly on a reversed pool, on an unreadable lease file or on one that does not decode; otherwise bindings and pool are what is configured, and the tables are empty or a possible result of loading the file |
| `LeaseAllocator.Allocator.ReapExpired` | internal/lease/lease.go:398-410 | reaping, in any map order, removes exactly the leases and declines that have run out, and their addresses |
| `LeaseAllocator.Allocator.ReapLeases` | internal/lease/lease.go:399-404 | the loop over the leases removes exactly those that have run out, and their addresses |
| `LeaseAllocator.Allocator.ReapDeclines` | internal/lease/lease.go:405-409 | the loop over the declines removes exactly those that have run out |
| `LeaseAllocator.Allocator.ScanPool` | internal/lease/lease.go:174-205 | the scan, with its 32-bit increment and its stop at the last address, ends for every pool and returns what the specification finds |
| `LeaseAllocator.Allocator.StaticIPSet` | internal/lease/lease.go:412-418 | the set of the addresses of all static bindings, in any map order |
| `LeaseAllocator.Allocator.LeaseRecords` | internal/lease/lease.go:364-369 | one record for every dynamic lease |
| `LeaseAllocator.Allocator.DeclinedRecords` | internal/lease/lease.go:370-375 | one record for every decline; no two addresses share a text key, so none overwrites another |
| `LeaseAllocator.Allocator.SaveLocked` | internal/lease/lease.go:355-396 | the file becomes version 1 with one record for each lease and decline and no other, or stays as it was; an error is reported exactly when a configured file was not replaced |
| `LeaseAllocator.Allocator.Allocate` | internal/lease/lease.go:149-206 | static binding, renewal, least free address or the right error; tables, file and static expiry after the call; gateway, name servers, hostname and expiry of the lease are those of the binding or of the pool |
| `LeaseAllocator.Allocator.Lookup` | internal/lease/lease.go:209-220 | a static binding, else a lease that has not run out; nothing is changed |
| `LeaseAllocator.Allocator.Release` | internal/lease/lease.go:224-242 | the lease goes exactly when the MAC holds one and a given address is the leased one; only then is the state saved |
| `LeaseAllocator.Allocator.Decline` | internal/lease/lease.go:247-269 | the entry found under the address is evicted, a pool address that is not static is quarantined for one lease time, the state is saved; a non-IPv4 address is refused and changes nothing |
| `LeaseAllocator.Allocator.ClearDynamic` | internal/lease/lease.go:273-280 | all leases and declines go, and so does the file content if the save succeeds |
| `LeaseAllocator.Allocator.Load` | internal/lease/lease.go:282-353 | loading errs exactly on an unreadable or undecodable file and otherwise yields one of the results that some visiting order gives |
| `LeaseAllocator.Allocator.LoadLeaseRecords` | internal/lease/lease.go:304-334 | the lease loop, whatever order the map is visited in, is the fold of its turns over some order that visits every record once |
| `LeaseAllocator.Allocator.LoadDeclinedRecords` | internal/lease/lease.go:335-351 | the decline loop is the fold of its turns over some order that visits every record once; two texts of one address replace each other |
| `LeaseAllocator.ClearLeaseFile` | internal/lease/lease.go:116-126 | the maintenance command leaves a file that holds no lease and no decline, or the old file and an error |
| `LeaseAllocator.SiteIsConfigured` | internal/lease/lease.go:68-107 | the last binding of each lower-case MAC is in the table with its own or the default gateway and name servers, no other key is, and there is a pool exactly when both ends are configured |
| `LeaseInvariants.LeaseTerms` | internal/lease/lease.go:158-204 | a client is told a full lease time, and the terms of its binding or those of the pool with a pool address that nobody is bound to |
| `LeaseProcess.StartAndAsk` | internal/lease/lease.go:68-206 | from configuration to answer: after a start on any lease file a bound MAC is given its configured binding, and every other lease has the configured pool terms |
| `LeaseProcess.Perform` | internal/lease/lease.go:149-280 | every call on the allocator object is one step of the world of the run theorems, and the caller gets exactly the acknowledged grant |
| `LeaseProcess.Start` | internal/lease/lease.go:68-114 | a start of the server is the start step: down after an error, else running with what the file gives; a reversed pool never starts |
| `LeaseProcess.Clear` | internal/lease/lease.go:116-126 | clearing the file from another process is a step that leaves the memory of a running server alone |
| `LeaseInvariants.FirstFreeLeast` | internal/lease/lease.go:174-205 | the scan returns the least pool address that is not taken, and nothing exactly when all are taken, for every start up to end, also at 2^32-1 |
| `LeaseInvariants.SoundUnique` | internal/lease/lease.go:194-203 | two MACs never hold one address |
| `LeaseInvariants.ReapKeeps` | internal/lease/lease.go:398-410 | reaping keeps each invariant and exactly the live entries |
| `LeaseInvariants.AllocateKeeps` | internal/lease/lease.go:149-206 | allocation keeps every invariant, from tables with stale entries too |
| `LeaseInvariants.ReleaseKeeps` | internal/lease/lease.go:224-242 | release keeps every invariant |
| `LeaseInvariants.DeclineKeeps` | internal/lease/lease.go:247-269 | decline keeps every invariant |
| `LeaseInvariants.LoadedFacts` | internal/lease/lease.go:304-351 | what any visiting order of any file yields: every lease and decline comes from a live admissible record, every live admissible address is taken or declined |
| `LeaseInvariants.LoadedSound` | internal/lease/lease.go:304-351 | whatever the file holds, distinct MACs get distinct pool addresses, none static |
| `LeaseInvariants.LoadedBacked` | internal/lease/lease.go:304-334 | a file in which no MAC has two live addresses leaves no stale address entry |
| `LeaseInvariants.LoadBackedIff` | internal/lease/lease.go:304-334 | every visiting order leaves `dynamic` and `byIP` mutual inverses exactly when no two live admissible records give one MAC two addresses |
| `LeaseInvariants.SavedSources` | internal/lease/lease.go:364-369 | the records of a saved file that a load accepts are exactly the live leases |
| `LeaseInvariants.LoadedIsReread` | internal/lease/lease.go:282-377 | a load of a saved file gives the live state, with the MACs of declines read through `canon` once more |
| `LeaseInvariants.ReloadIsReap` | internal/lease/lease.go:282-410 | reload equals reaping: for every order of saving and loading, the outcomes of a load are exactly the one state left by reaping |
| `LeaseInvariants.ReloadIsReapIff` | internal/lease/lease.go:128-133 | reload equals reaping exactly when a second pass of `canon` changes no MAC of a live entry |
| `LeaseSafety.LoadedIsSafe` | internal/lease/lease.go:282-353 | whatever the visiting order, a load of a safe file leaves safe tables |
| `LeaseSafety.SavedIsSafe` | internal/lease/lease.go:355-377 | what safe tables are saved as is a safe file |
| `LeaseSafety.AllocateKeepsSafe` | internal/lease/lease.go:149-206 | allocation for a MAC that `canon` settles in one pass keeps tables safe, also those with leases under padded MACs and stale entries |
| `LeaseSafety.DeclineKeepsSafe` | internal/lease/lease.go:247-269 | so does a decline of any address |
| `LeaseRuns.SavedUnlocked` | internal/lease/lease.go:149-280 | tables that hold two leases which one MAC would be read back from are never what an operation saves |
| `LeaseRuns.StepKeepsSound` | internal/lease/lease.go:149-353 | no operation, failed save, crash or start breaks the uniqueness invariant |
| `LeaseRuns.RobustUniqueness` | internal/lease/lease.go:194-203 | on every run from any lease file whatever, distinct MACs hold distinct pool addresses, none static |
| `LeaseRuns.StepKeepsSafe` | internal/lease/lease.go:149-377 | every step keeps memory and file such that no MAC has, or can come to have, two addresses |
| `LeaseRuns.StepKeepsHeld` | internal/lease/lease.go:149-377 | an acknowledged live grant stays in memory (if the server is up) and in the file through every step that does not end it |
| `LeaseRuns.AckedIsHeld` | internal/lease/lease.go:164-204 | a grant acknowledged without an error is in memory and in the file |
| `LeaseRuns.HeldDecides` | internal/lease/lease.go:158-206 | while a grant is held, its holder is given its address and nobody else is |
| `LeaseRuns.HeldThrough` | internal/lease/lease.go:149-377 | the grant is held at every moment until it expires or is ended |
| `LeaseRuns.Exclusivity` | internal/lease/lease.go:149-410 | whole-run exclusivity through expiry, renewal, failed saves, crashes and restarts, from every start without a file or with a safe one: no other MAC is handed the address of a live acknowledged grant, unless both have static bindings to it |
| `LeaseSharing.HandedOut` | internal/lease/lease.go:174-205 | an open address is handed out in the end when only newcomers ask |
| `LeaseSharing.RestartShares` | internal/lease/lease.go:282-334 | a run that acknowledged an address and then left it unclaimed in a saved file goes on, through a restart, to acknowledge it to another MAC |
| `LeaseFiles.ClashShares` | internal/lease/lease.go:304-334 | from every file whose live records give one settled MAC two addresses, some run acknowledges one address to two MACs at once, through a stale entry, a decline and a restart |
| `LeaseFiles.TwinsShare` | internal/lease/lease.go:306-307 | the same from a file with a live record under a padded key and another one with its second form and another address, if a server that holds both leases can come to save them |
| `LeaseFiles.RoomShares` | internal/lease/lease.go:306-307 | the same from a file with a live record under a padded key if a server started while it runs can give its second form an address beside it |
| `LeaseFiles.SafeNeverShares` | internal/lease/lease.go:282-334 | no run from a safe file acknowledges one address to two MACs at once |
| `LeaseFiles.FileSharesIff` | internal/lease/lease.go:282-334 | exactly which lease files break exclusivity, of all there are: those with two live records that give one settled MAC two addresses, and those with a live padded record whose second form can hold a second address |
| `LeaseRuns.SameAddress` | internal/lease/lease.go:158-168 | a request during a live acknowledged grant is given the same address, whatever other clients did in between (section 3.1 of RFC 2131) |
| `LeaseQuarantine.DeclineQuarantine` | internal/lease/lease.go:244-269 | a declined pool address whose decline was saved is offered to nobody for one lease time, through restarts (section 4.3.3 of RFC 2131) |
| `LeaseQuarantine.StepKeepsOut` | internal/lease/lease.go:149-353 | every step but a clear keeps a saved quarantine in memory and in the file |
| `LeaseStructure.StructuralInvariant` | internal/lease/lease.go:149-351 | on every run from no file or a self-written one: `dynamic` and `byIP` are mutual inverses, leased and declined addresses are pool addresses, not static and disjoint, no static MAC has a lease |
| `LeaseStructure.LoadedConsistent` | internal/lease/lease.go:282-377 | loading a self-written file restores the full invariant |
| `LeaseStructure.StructuredIsSafe` | internal/lease/lease.go:282-377 | worlds with the full invariant are among those from which exclusivity holds |
| `LeaseTable.ViewAges` | internal/lease/lease.go:208-220 | time alone ages the table: what the maps represent needs no reaping |
| `LeaseTable.ReapKeepsView` | internal/lease/lease.go:398-410 | reaping changes no cell of the table |
| `LeaseTable.AllocateView` | internal/lease/lease.go:149-206 | allocation leases the cell its MAC holds, else the least free one, and hands out that lease; or it changes nothing and fails when there is none |
| `LeaseTable.ReleaseView` | internal/lease/lease.go:224-242 | release frees the cell its caller holds and no other |
| `LeaseTable.DeclineView` | internal/lease/lease.go:247-269 | decline marks the cell declined, whatever it was, unless static |
| `LeaseTable.LookupView` | internal/lease/lease.go:209-220 | lookup answers from the table although it never reaps |
| `LeaseTable.ClearedView` | internal/lease/lease.go:271-280 | clearing leaves only free and static cells |
| `LeaseTable.ReloadedView` | internal/lease/lease.go:282-353 | a reloaded state represents the same table |
| `LeaseTable.StepRefines` | internal/lease/lease.go:149-422 | every step of maps, file and restarts is a step of a machine with one table in memory and one on disk, which gives the caller the same lease |
| `LeaseTable.RunRefines` | internal/lease/lease.go:149-422 | every run is matched step by step, answers included, by a run of that machine |
| `LeaseAccounting.PoolSizeIs` | internal/lease/lease.go:420-422 | the pool has end - start + 1 addresses |
| `LeaseAccounting.SpareCount` | internal/lease/lease.go:174-205 | the exact number of addresses that can be handed out after reaping, stale entries and declined leases counted once |
| `LeaseAccounting.StaleIsLost` | internal/lease/lease.go:398-404 | no reaping gives back the address of a stale entry |
| `LeaseAccounting.FreeCount` | internal/lease/lease.go:164-205 | after reaping, free addresses are the pool size less leases, declines and distinct static pool addresses |
| `LeaseAccounting.AllocateSucceedsIff` | internal/lease/lease.go:170-205 | on tables left by any file, a MAC with neither binding nor live lease is given an address exactly when the pool is larger than the addresses with an entry or a live decline and the static ones together |
| `LeaseAccounting.DeclineCount` | internal/lease/lease.go:257-267 | declining a leased address conserves the count, declining a free one takes one away |
| `LeaseAccounting.ReleaseCount` | internal/lease/lease.go:232-240 | a release gives back one address exactly when it ends a live lease |
| `LeaseLimits.PersistenceIff` | internal/lease/lease.go:355-358 | some run from a first start (nothing in memory, no file) hands a live acknowledged address to a second MAC exactly when there is no lease file and the pool has an address to give |
| `LeaseLimits.StaticsShareIff` | internal/lease/lease.go:158-163 | from a safe world with a lease file two MACs come to hold one live acknowledged address exactly if two static bindings that requests can reach have equal addresses |
| `LeaseClearing.ClearedBackIff` | internal/lease/lease.go:116-126 | after the file was cleared beside a running server, a live lease is back at the next start exactly if the server saved since the last clear |
| `LeaseLimits.PaddedLosesAddress` | internal/lease/lease.go:128-133 | a padded hyphen or dot spelling loses its address over a restart |
| `LeaseLimits.DeclineEvictsOnlyHolderIff` | internal/lease/lease.go:258-261 | a decline evicts only holders of the declined address exactly when no address entry is stale |
| `MacText.ParseMacExact` | internal/lease/lease.go:128-133 | a text parses to a hardware address exactly when it is a colon, hyphen or dot spelling of it in some letter case |
| `MacText.CanonOfSpelling` | internal/node/store.go:22-27 | every spelling of an address has the same canonical form, its lower-case colon form |
| `MacText.CanonOfHwString` | internal/state/state.go:89-94 | a printed hardware address of any length is its own canonical form |
| `MacText.CanonIdempotentIff` | internal/lease/lease.go:128-133 | `canon` is idempotent exactly outside padded hyphen and dot spellings |
| `MacText.PaddedSpellings` | internal/lease/lease.go:128-133 | every hyphen or dot spelling with a space before it is such a text |
| `MacText.PaddedSecondForm` | internal/lease/lease.go:128-133 | its second canonical form is the printed address |
| `MacText.CanonSettles` | internal/lease/lease.go:128-133 | a second pass always reaches a fixed point |
| `MacText.CanonOfTrimmedSpelling` | internal/ironic/server.go:203-214 | a padded spelling, once trimmed, has the canonical form of the address |
| `MacText.TrimSpaceCuts` | internal/ironic/server.go:207 | trimming cuts off only padding, at both ends, and all of it |
| `MacText.AsciiSpaces` | internal/ironic/server.go:207 | the ASCII characters that count as padding |
| `MacText.LowerExact` | internal/lease/lease.go:128-133 | lower case changes upper-case letters to their partners and nothing else |
| `MacText.HwStringExact` | internal/lease/lease.go:128-130 | each octet is printed as two lower-case hexadecimal digits, higher first, with colons between |
| `IpText.U32OfIp` | internal/lease/lease.go:135-142 | address to number undoes number to address for all 2^32 values |
| `IpText.IpOfU32` | internal/lease/lease.go:135-142 | and the other way round for all four-byte addresses |
| `IpText.OctetsExact` | internal/lease/lease.go:135-142 | the first octet is the highest |
| `IpText.IpTextExact` | internal/lease/lease.go:371 | the scanner of dotted text accepts exactly the dotted-decimal prints, each as its own address |
| `Ip6Text.PrintedParses` | internal/lease/lease.go:308 | a printed address is read back as itself |
| `Ip6Text.DottedTextExact` | internal/lease/lease.go:308 | of the texts without colon exactly the printed addresses are read, each as its own address |
| `Ip6Text.MappedParses` | internal/lease/lease.go:336 | after `::ffff:` the print of an address is read as that address too, so a file written by hand may name it twice |
| `IpText.IpStringInjective` | internal/lease/lease.go:371 | different addresses print differently, so decline keys never collapse |
| `IpText.ReverseAddrInjective` | internal/dns/server.go:74 | different addresses have different reverse names |
| `IpText.DecimalExact` | internal/lease/lease.go:371 | an octet is printed in decimal without leading zeros |
| `IpText.TextsExact` | internal/dns/server.go:74 | addresses are printed highest octet first, reverse names lowest first under in-addr.arpa |
| `DnsNames.FqdnExact` | internal/dns/server.go:107-113 | a plain name gets the domain and a dotted one does not; each ends in one dot |
| `DnsNames.FqdnIgnores` | internal/dns/server.go:107-113 | letter case, a final dot of the name and dots around the domain make no difference |
| `DnsNames.TrimDotsCuts` | internal/dns/server.go:79 | trimming a suffix cuts off only dots, at both ends, and all of them |
| `Driver.DriverProtocol` | internal/ironic/deploy.go:16-97 | over all interleavings of heartbeats, driver steps and agent answers: at most one driver starts, prepare and run are each sent at most once, neither compare-and-swap fails |
| `Driver.RunAfterSuccess` | internal/ironic/deploy.go:52-80 | run is sent last, directly after the agent answered SUCCEEDED for the id that the one prepare returned |
| `Driver.FailureEnds` | internal/ironic/deploy.go:114-117 | after the agent answered FAILED nothing more is sent and the node ends failed, in every interleaving |
| `Driver.SuccessRuns` | internal/ironic/deploy.go:62-85 | after the agent answered SUCCEEDED run is the one command sent, and its answer decides between done and failed |
| `Driver.OthersWait` | internal/ironic/deploy.go:104-131 | any other answer changes nothing; the deadline check then gives up only past two hours |
| `Driver.StateMoves` | internal/node/node.go:113-128 | the state moves only along new, deploying, run_image, done with failed from the middle two; done and failed are absorbing |
| `Driver.DriverStepsBounded` | internal/ironic/deploy.go:99-133 | no run, however long, holds more than a fixed number of driver steps |
| `Driver.NeverStuck` | internal/ironic/deploy.go:16-133 | a driver that has not stopped can always take a step once its tick is due |
| `Driver.StoppedLog` | internal/ironic/deploy.go:26-85 | a stopped driver never stopped short of a call that was due; done exactly when run was accepted |
| `Driver.AfterSnapshot` | internal/ironic/deploy.go:19-24 | whatever happens after the snapshot, the driver has given up exactly if the callback URL was empty then |
| `Driver.SnapshotDecides` | internal/ironic/deploy.go:19-85 | the callback URL at the snapshot decides the run: in the end the node is done or failed exactly if it was not empty, and every due call was made; else nothing was sent |
| `Driver.NoUrlForever` | internal/node/node.go:92-105 | after a driver started without a URL, no later heartbeat ever deploys the node |
| `Deploy.PollUntilTerminal` | internal/ironic/deploy.go:99-133 | at most 1442 queries when ticks come no earlier than every 5 seconds; true exactly when the last answer is SUCCEEDED, false only on FAILED or past two hours, with the node failed; no earlier answer was either |
| `Deploy.BoundIsTight` | internal/ironic/deploy.go:99-133 | an agent that keeps answering RUNNING is asked exactly 1442 times |
| `Deploy.DriveDeploy` | internal/ironic/deploy.go:16-97 | one uninterrupted deployment makes exactly the calls that are due: a first answer SUCCEEDED is followed by run, a first FAILED by nothing, run follows nothing else; it ends done exactly when run was accepted, exactly then marks and saves its MACs, and is a run of the driver machine from start to end |
| `Deploy.PollAndRun` | internal/ironic/deploy.go:62-94 | the same from the id of the prepare command on |
| `Deploy.InAgentsWords` | internal/ironic/deploy.go:62-85 | what an exchange looks like in the words of the agent: run exactly after SUCCEEDED, nothing after FAILED |
| `DeploySteps.PreparedCarries` | internal/ironic/deploy.go:52-85 | the driver machine alone makes exactly these calls and ends with this node |
| `DeploySteps.PollGoes` | internal/ironic/deploy.go:99-133 | the polling loop is a run of the machine through its queries, checks and waits |
| `Deploy.PollCallsDisciplined` | internal/ironic/deploy.go:99-133 | a finished poll loop leaves a log the protocol allows |
| `Node.Node.constructor` | internal/node/node.go:65-73 | a fresh node: state new, no URL, no command, no driver started |
| `Node.Node.RecordHeartbeat` | internal/node/node.go:95-105 | URL and time are recorded; a driver is asked for exactly when none was started and the node is new |
| `Node.Node.SetCommandID` | internal/node/node.go:107-111 | only the command id changes |
| `Node.Node.Transition` | internal/node/node.go:114-122 | compare-and-swap of the state |
| `Node.Node.ForceState` | internal/node/node.go:124-128 | only the state changes |
| `Store.Store.GetByUUID` | internal/node/store.go:29-33 | the node stored under the identifier, or none |
| `Store.Store.FindByMACs` | internal/node/store.go:37-46 | the node of the first MAC that is indexed, and none exactly when no MAC is |
| `Store.Store.HostnameForMACs` | internal/node/store.go:87-94 | the hostname of the first MAC that has one, and the empty text exactly when none has |
| `Store.Store.GetOrCreate` | internal/node/store.go:52-77 | finds the node that the first usable and indexed MAC of the list leads to, else registers a fresh node with the given token, all usable MACs and the hostname of the first of them that has one; stored nodes stay |
| `Store.FoundLeads` | internal/node/store.go:55-70 | the search over usable MACs finds the node of the first indexed one, and none exactly when none is indexed |
| `Store.UsableJoins` | internal/node/store.go:53-59 | the usable MACs of a list keep their order and number |
| `Store.RegisterKeeps` | internal/node/store.go:52-77 | registration keeps the index exact and moves no entry |
| `Store.HistoryIndexed` | internal/node/store.go:52-77 | over any run every index entry points to a stored node that lists the MAC, every MAC of every node is indexed, and entries never move |
| `Store.MacsDisjoint` | internal/node/store.go:72-75 | different nodes share no MAC |
| `Store.LookupCovers` | internal/node/store.go:66-76 | after a lookup every usable listed MAC belongs to the returned node exactly if the lookup created it or all of them led to it before |
| `Store.LookupStable` | internal/node/store.go:66-70 | a lookup whose first usable MAC is indexed returns the same node for ever |
| `Store.LookupStableIff` | internal/node/store.go:66-75 | a successful lookup is safe from every later registration exactly when its first usable MAC is indexed |
| `Ironic.SplitMACs` | internal/ironic/server.go:203-214 | the trimmed parts that are not empty; a list of clean parts is read back as it was joined, in its order |
| `Ironic.TrimmedJoins` | internal/ironic/server.go:206-212 | trimming keeps the order of the parts and drops none but empty ones |
| `Ironic.TrimmedOne` | internal/ironic/server.go:206-212 | a part is kept trimmed unless it is only padding |
| `Ironic.SplitJoin` | internal/ironic/server.go:204 | splitting undoes joining with commas |
| `Ironic.ListedHardware` | internal/ironic/server.go:100-113 | every hardware address an agent lists, in any spelling, padded or not, is registered in its printed form |
| `Tracker.MarkRecords` | internal/state/state.go:115-121 | exactly the canonical forms of the given MACs are recorded, all with one record; the rest is untouched |
| `Tracker.Tracker.Load` | internal/state/state.go:54-71 | memory is the file content; an absent file is no error and a file that does not decode is one |
| `Tracker.Tracker.Save` | internal/state/state.go:73-87 | the file becomes the memory or stays as it was |
| `Tracker.Tracker.IsDeployed` | internal/state/state.go:97-102 | whether the canonical form is recorded |
| `Tracker.Tracker.MarkDeployed` | internal/state/state.go:107-123 | exactly the non-empty canonical forms of the MACs are recorded in memory with node, time and image, the rest stays; the file follows if the save succeeds |
| `Tracker.Tracker.Forget` | internal/state/state.go:127-136 | one record goes; an unknown MAC saves nothing |
| `Tracker.Tracker.ForgetAll` | internal/state/state.go:139-144 | all records go |
| `DhcpServer.Server.Handle` | internal/dhcp/server.go:59-213 | every packet is one step of the lease server or none; a discover is answered with an offer and a request with an ack exactly when its allocation reported no error; each field of the reply comes from the settings, the lease, the architecture and the gate; a decline is about the requested address, else the client address, and about nothing without either |
| `DhcpServer.Server.Answer` | internal/dhcp/server.go:107-199 | offer or ack, server, mask, lease seconds, router, name servers and names as configured and leased; for an undeployed MAC the PXE options if it announced an architecture, and the iPXE URL, undionly.kpxe or snponly.efi; for a deployed one none of these |
| `DhcpServer.NatStringExact` | internal/dhcp/server.go:217-218 | the port in the boot URL is printed in decimal without leading zeros |
| `DhcpServer.GatedDeployed` | internal/dhcp/server.go:107-115 | for a deployed MAC the gate leaves exactly the plain lease |
| `DhcpServer.PacketsAreProper` | internal/dhcp/server.go:61 | the handler only takes steps with MACs that `canon` settles in one pass |
| `DhcpServer.RepliesExclusive` | internal/dhcp/server.go:101-105 | no two clients are told one address while the earlier lease runs, on any run, with the stated ways to end it |
| `Fleet.RecordsAreEarned` | internal/ironic/deploy.go:85-94 | every deployment record that was not there at the start belongs to a MAC of a node that reached done |
| `Fleet.MarksWhenDone` | internal/ironic/deploy.go:85-91 | a driver marks its node deployed only after run was accepted and the state is done |
| `Fleet.LastWriteDecides` | internal/state/state.go:73-87 | a MAC is recorded in the file exactly if the last event that wrote it, of the server or of a command, wrote the record |
| `FleetGate.RecordHoldsIff` | cmd/autopxe/main.go:64-72 | as long as nobody forgets the MAC, the record of a saved mark holds in memory and file exactly until a command that loaded the file before the mark writes its map back |
| `FleetGate.DeployedGate` | internal/dhcp/server.go:107-199 | while the record holds, across restarts, every reply to any of the node's MACs is the plain lease |
| `FleetGate.StaleSaveOpens` | cmd/autopxe/main.go:184-185 | after such a write the MAC is recorded at a later start exactly if it was written again and not taken out after that; otherwise it is offered a boot file again wherever there is one |
| `FleetHazard.RecordCanBeLost` | cmd/autopxe/main.go:64-72 | for every two MACs, a run from a first start on which the one is deployed and saved, only the other is forgotten, and the one is not recorded at the next start |
| `FleetGate.ForgottenIff` | internal/state/state.go:125-136 | after a forget under a running server, the record is back at the next start exactly if it was written again and not taken out after that |
| `FleetGate.ForgottenUntilNextMark` | internal/state/state.go:125-136 | with no other command in between: exactly if the running server saved the mark of any node before it went down |
| `FleetGate.ListedRecordedIff` | internal/node/store.go:66-76 | the mark of a looked-up node records a listed MAC exactly if it was recorded before, the lookup created the node or the MAC led to it already |
| `FleetGate.LookupToGate` | internal/ironic/server.go:100-139 | from the address list of an agent to the plain lease, for every listed hardware address that belongs to the node, in any spelling |
| `FleetGate.LateMacStaysOpen` | internal/node/store.go:66-70 | a MAC listed first when its node was known already is offered a boot file after the deployment wherever there is one |
| `FleetProcess.LookUp` | internal/ironic/server.go:100-117 | a lookup on the registry object is the lookup step, answered with the node it says |
| `FleetProcess.HeartBeat` | internal/ironic/server.go:171-198 | a heartbeat on a node object is the heartbeat step |
| `FleetProcess.MarkNode` | internal/ironic/deploy.go:90-91 | the mark on the tracker object is the marking step of the driver |
| `FleetProcess.StartServer` | cmd/autopxe/main.go:64-93 | a start of the server is the start step |
| `FleetProcess.LoadCommand` | cmd/autopxe/main.go:64 | a maintenance command starts by loading the file |
| `FleetProcess.ForgetCommand` | cmd/autopxe/main.go:184-185 | and ends by writing back what it loaded without the MAC, if the MAC was in it |
| `FleetProcess.ForgetAllCommand` | cmd/autopxe/main.go:177-178 | or by writing an empty record |
| `DnsServer.Server.constructor` | internal/dns/server.go:56-96 | the tables, and the forwarders sorted with longest suffix first |
| `DnsServer.Server.Records` | internal/dns/server.go:71-77 | forward and reverse tables of the static records: the last record of a name and the last one of an address count |
| `DnsServer.Server.Forwarders` | internal/dns/server.go:78-94 | exactly the lower-case dotted suffixes of the entries that are not only dots, each with its own upstreams, a permutation in descending length |
| `DnsServer.SortByLength` | internal/dns/server.go:92-94 | sorted, and a permutation |
| `DnsServer.EntriesDotted` | internal/dns/server.go:78-91 | every forwarder suffix starts and ends with one dot around a text that does neither |
| `DnsServer.MatchesIff` | internal/dns/server.go:269 | an entry matches a name with a final dot exactly when its dotted suffix ends the name with a dot in front, so at label boundaries only; a name without final dot only when it is the suffix |
| `DnsServer.EqualLengthsAgree` | internal/dns/server.go:92-94 | matches of equal length have equal suffixes: only duplicates are ambiguous |
| `DnsServer.Server.UpstreamsFor` | internal/dns/server.go:267-274 | the upstreams of a longest configured suffix that the name lies under, and the default ones exactly without such a suffix |
| `DnsServer.OnlySuffix` | internal/dns/server.go:267-274 | a name under one configured suffix only goes to the upstreams of that suffix |
| `DnsServer.EntriesJoin` | internal/dns/server.go:78-91 | every entry that is not only dots becomes one forwarder, in their order |
| `DnsServer.Server.DeployedAddress` | internal/dns/server.go:218-236 | the leased address of the first host that has the name, is recorded as deployed and has a lease, and none exactly without such a host |
| `DnsServer.Server.LocalAddress` | internal/dns/server.go:206-216 | the last static record with the name, else the first deployed and leased host with it if enabled; with nothing deployed only static records answer |
| `DnsServer.Server.LocalName` | internal/dns/server.go:238-265 | the name of the last static record with the address, else of the first deployed host leased it if enabled; with nothing deployed only static records answer |
| `DnsServer.Server.DeployedName` | internal/dns/server.go:245-263 | the name of the first deployed host whose leased address has the reverse name, and none exactly without one |
| `DnsServer.LocalAExact` | internal/dns/server.go:206-236 | an answer is an address the name stands for, and there is none exactly when it stands for none |
| `DnsServer.ForwardReverse` | internal/dns/server.go:206-265 | in every tracker and allocator state, a name returned for a reverse query resolves to an address with that reverse name, if no name stands for two addresses |
| `DnsServer.DistinctNamesSuffice` | internal/dns/server.go:71-77 | pairwise different names over static records and host names give that condition |
| `DnsAgreement.AgreementIff` | internal/dns/server.go:206-265 | agreement holds for every query exactly when the last static record with an address and the last one with its name have the same address and, for the first host with an address that no static record has, no static record has its name and the first host to answer for the name has the same address |
| `DnsServer.HostsAreStatic` | internal/dns/server.go:218-265 | a host is answered with its static address whatever leases exist |

## Left out

- LeaseAllocator.Allocator.Allocate: hands out a lease value; that callers share the `*Lease` object with the allocator outside its lock is not modelled.
- LeaseAllocator.Allocator.Release: the address is already what `To4` makes of it; that the error texts differ is not modelled.
- LeaseSharing.HandedOut: the newcomers of the runs that share an address are MAC texts longer than all known ones; the allocator takes any text, but such texts need not fit into DHCP packets, so these are runs of the allocator.
- MacText.CanonIdempotentIff: letter case is that of ASCII; Unicode case folding is not modelled.
- Deploy.PollUntilTerminal: runs under the background context, which is never cancelled, so the branch for a cancelled context is left out.
- Deploy.DriveDeploy: config-drive generation, which never stops a deployment, and the parameters of the commands are left out, as is a server without tracker.
- Driver.DriverProtocol: log lines between steps are left out; the agent is any sequence of answers.
- DnsServer.Server.constructor: upstream addresses are taken with their port already appended.
- DnsServer.ForwardReverse: static bindings and records are IPv4; IPv6 records are not modelled.
- DhcpServer.Server.Handle: the network write and the construction of the reply from the request always succeed; headers copied from the request are not modelled.
- The heartbeat handler's request parsing, the trimming of slashes from the callback URL and the instance information sent to agents: plumbing around the steps that are modelled.
- DNS message dispatch, forwarding with its retry over TCP, and DHCP wire encoding: library behaviour.
- Detection of architecture and iPXE from DHCP options: parameters of the gate here.
- HTTP, TFTP and image serving, artifact download, image hashing, config-drive building, configuration defaults and validation, and the command line: input and output over libraries.
- JSON text, time stamp formats, random identifiers and tokens, sockets and logging.
