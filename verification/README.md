# Verified models of Podman Machine

Podman Machine creates and manages virtual machines that run Podman. Most of it is plumbing around VBoxManage, ssh
and JSON; this project models the parts in which something can go wrong between the lines, and proves what they
promise, for every input, every answer of the outside world and every interleaving.

| part | files |
|---|---|
| host actions, and the concurrent runner over many machines with the lock of the serial driver | `HostActions`, `HostCommands`, `HostWaiting`, `ActionRunner`, `DuplicateNames` |
| plugin processes: heartbeat, server loop, two-stage shutdown | `PluginShutdown`, `PluginLiveness`, `PluginFinish`, `PluginHistory`, `HeartbeatTiming` |
| VirtualBox driver: traces of Start, Stop, Restart, Kill, Remove | `VBoxLifecycle` |
| VirtualBox driver: network set-up, address arithmetic, parsers, collisions, the guest's address | `HostOnlyNetwork`, `DhcpRange`, `KeyValues`, `HostOnlyAdapters`, `AdapterRoundTrip`, `IpCollisions`, `Ifconfig`, `IfconfigText` |
| `ls`: fan-out with timeouts, the URL shortcut, the sort | `HostListing`, `ListingHistory`, `StateShortcut`, `HostSort` |
| config files, `rm`, disk images, download progress | `ConfigStore`, `RemoveCommand`, `DiskImage`, `ProgressReader` |

Goroutines, channels and mutexes become step systems: a state, the steps each goroutine can make in it, and runs as
sequences of such steps. `Basics` holds the types that several parts share. Driver calls, VBoxManage, ssh, file operations, clocks and random numbers are parameters or
nondeterministic answers, and each of them may fail. `dafny verify dfyconfig.toml` checks the project.

## What turned out not to hold

Each of these comes with an input or a run that shows it, and with the exact condition under which the code is right.

- Naming one machine twice is not equivalent to any sequential order: all goroutines can check before any of them acts,
  and the errors that a plain loop reports are lost. For every list of names, and whichever of the hosts share the lock,
  all runs agree with the loop exactly if no name is repeated (`DuplicateNames.DistinctIff`).
- A driver is in the factory's open list before its constructor has succeeded. After a failed handshake
  (`PluginFinish.FailedHandshakeExample`), configuration or heartbeat (`PluginHistory.FailedConfigExample`,
  `PluginHistory.FailedBeatExample`) the factory's `Close` never returns normally again (`PluginHistory.DoomedNeverFinishes`):
  it blocks on a channel nobody receives from, or panics on the missing plugin. `PluginFinish.CanFinishIff` says of every
  reachable state whether a `Close` can still finish.
- `Close` may return before an `execServer` loop has returned (`PluginLiveness.CloseMayReturnBeforeExecServer`). One that
  can finish waits for the loops exactly if all of them have returned already, and one that is about to begin exactly if
  nothing has been opened (`PluginFinish.WaitsForExecIff`, `PluginFinish.CloseWaitsForExecIff`); the loops do end
  afterwards (`PluginLiveness.ExecServerReturns`).
- The timeout of `ls` does not bound a listing: the timeout branch itself calls the driver for its name, under the
  lock that a hung call may hold (`HostListing.HungCallExample`, `HostListing.HungCallBlocksTimeouts`). Whatever query
  calls hang, every listing is completed exactly if no host is queried by calls under the shared lock
  (`HostListing.CompletesIff`); if calls for the name may hang too, only the empty one is
  (`HostListing.CompletesIfNamesHangIff`).
- For prefixes longer than 24 the DHCP pool is right only if the network address ends in octet 0, and for 28 to 32 only for
  small draws or never (`DhcpRange.WellPlacedIff`, `DhcpRange.SafeCIDRIff`); even where it is right, the pool may contain
  the host's own address (`DhcpRange.HostInPoolIff`).
- A host-only adapter with the requested address but another mask is not reused. A second adapter gets the same address;
  after that the set-up itself fails if there is any DHCP server, and every later listing of adapters is refused
  (`HostOnlyNetwork.OtherMaskRun`). On a VirtualBox that does not fail by itself, `HostOnlyNetwork.SetupHostOnlyNetwork`
  says exactly when the set-up succeeds.
- The sort of `ls` loses one of two different items whose names differ only in case (`HostSort.ItemsPreservedIff`).
- A line of `ifconfig` output that is cut off after an address makes the search panic, which kills the plugin and lists
  a running machine as being in error (`StateShortcut.RunningButListedInError`). The exact condition is on the lines
  (`StateShortcut.ListedStateIff`, `IfconfigText.PanicsIff`, `Ifconfig.NotFoundIff`).
- If the last rename of a config replacement fails and the deferred removal of the temporary file succeeds, both copies
  are gone; in all other states one of them is whole (`ConfigStore.SaveToFile`).

## Model

| member | source | states |
|---|---|---|
| `HostActions.SequenceRunsBoth` | libmachine/host/host.go:204-220 | Running `p` and then `q` as one program has the outcome of `p` if that is an error and otherwise of `q` from where `p` ended, on any driver. |
| `HostActions.PollOutcome` | libmachine/mcnutils/utils.go:81-103 | Polling asks only for the state, at most the given number of times, stops at the first answer that is the desired state, and gives up exactly when no answer was. |
| `HostActions.ActionOutcome` | libmachine/host/host.go:149-162 | `runActionForState` on any driver: looks first; calls nothing more and reports it if the machine is already there; otherwise calls the action exactly once and passes its error on; returns no error exactly when the last state the driver reported, while polling, is the desired one. |
| `HostActions.WaitForState` | libmachine/mcnutils/utils.go:81-103 | The polling loop ends with the driver state and error of the polling program. |
| `HostActions.PerformAction` | libmachine/host/host.go:149-162 | The statements of check, act and poll refine the program about which the other results are stated. |
| `HostCommands.SuccessIsProbed` | libmachine/provision/utils.go:199-218 | A program whose every successful way out ends in a command on the guest returns without error only if the last call was such a command and succeeded. |
| `HostCommands.WaitIsHarmless` | libmachine/host/host.go:164-171 | Waiting for ssh, detecting the provisioner and waiting for Podman ends in such a command, for any numbers of attempts, and calls nothing that acts on the machine. |
| `HostCommands.StartOutcome` | libmachine/host/host.go:173-182 | `Start` on any driver: only an error if the machine runs; otherwise exactly one call of the driver's `Start` and after it only questions; success means that the guest answered the last of them. |
| `HostCommands.RestartOutcome` | libmachine/host/host.go:204-220 | `Restart` on any driver: a stopped machine is started, a running one restarted, with exactly one such call and only questions after it; in any other state the driver is only asked; success means that the guest answered last. |
| `HostCommands.StopAndKillOutcome` | libmachine/host/host.go:184-202 | `Stop` and `Kill` check, act once and poll at most 60 times, with the outcome described for the action. |
| `HostCommands.EveryCommandChangesOnce` | commands/commands.go:403-436 | Whatever the driver answers, no command (start, stop, restart, kill, ip) calls more than one operation that changes the machine. |
| `HostWaiting.StartSucceedsIff` | libmachine/host/host.go:173-182 | `Start` on any driver returns no error exactly if its last call was a command that the guest carried out. |
| `HostWaiting.RestartSucceedsIff` | libmachine/host/host.go:204-220 | The same for `Restart`. |
| `HostWaiting.AwaitBounds` | libmachine/drivers/utils.go:56-73 | Waiting for a command on the guest begins it at most the given number of times, goes on with the first that succeeds, and gives up after exactly that number. |
| `HostWaiting.WaitBounds` | libmachine/provision/provisioner.go:94-105 | Waiting for Podman begins 60 commands and fails if there is no ssh; otherwise up to 60, one to detect the provisioner, and up to 10 for Podman, all 10 if it fails there; it succeeds exactly if it gets to the end. |
| `ActionRunner.StepKeepsInv` | commands/commands.go:418-462 | Every step of a worker or of the main goroutine keeps the invariant: lock ownership is exactly being between lock and unlock, the number of results received is the number of workers that have sent, and so on. |
| `ActionRunner.EveryRunIsSafe` | libmachine/drivers/serial.go:12-172 | In every run: at most one inner call of a serial driver is in progress, nobody holds the lock while sleeping, sending or afterwards, nothing is left to send once the channel is closed, the unlocked `MarshalJSON` of the save loop overlaps no driver call, and nothing is saved unless every action succeeded. |
| `ActionRunner.Progress` | commands/commands.go:438-462 | In every reachable unfinished state some goroutine has an enabled step: no deadlock. |
| `ActionRunner.EveryRunEnds` | commands/commands.go:438-462 | No run is longer than the rank of its first state, whatever the drivers answer, and a run that cannot go on has finished. |
| `ActionRunner.StepConservesErrors` | commands/commands.go:418-436 | Errors collected plus errors still owed by the workers are, after every step, the errors of all machines each run alone. |
| `ActionRunner.SequentialIsPerMachine` | commands/commands.go:438-462 | With distinct machines the plain loop leaves every machine as if it had run alone, and all others untouched. |
| `ActionRunner.SequentialErrors` | commands/commands.go:438-462 | And it collects exactly the errors of the machines, each run alone. |
| `ActionRunner.EveryInterleavingRefinesTheLoop` | commands/commands.go:418-462 | With distinct machines every interleaving ends with the machine states and the multiset of errors of running the actions one after another. |
| `ActionRunner.SucceedsIff` | commands/commands.go:128-138 | A finished command has succeeded, with every host saved, exactly if no action returned an error and no save failed, whether or not the machines are distinct. |
| `ActionRunner.SucceedsAsTheLoop` | commands/commands.go:128-138 | With distinct machines: exactly if the plain loop has no error and no save failed. |
| `DuplicateNames.NoErrors` | commands/commands.go:438-462 | For any names, with or without the shared lock, a run of `stop` in which all check before any acts, and which collects no error. |
| `DuplicateNames.LoopComplains` | libmachine/host/host.go:149-162 | The plain loop reports an error for a name that it meets again. |
| `DuplicateNames.DistinctIff` | commands/commands.go:438-462 | For every list of names: every run on every machine collects the errors of the loop exactly if no name is repeated. |
| `PluginShutdown.StepKeepsInv` | libmachine/drivers/rpc/client_driver.go:106-224 | Every step of constructor, heartbeat, server, `execServer` and `Close` keeps the invariant: drivers before the closer's position are shut down, those after it untouched, the one at it as far as the closer's program counter says. |
| `PluginShutdown.DoneChannelDiscipline` | libmachine/drivers/rpc/client_driver.go:209-224 | In every run the done channel is closed at most once, only after its one value was received by a goroutine that returned, and is not closed whenever a send on it is attempted; the only panic possible is the missing plugin. |
| `PluginLiveness.PassesSendIff` | libmachine/drivers/rpc/client_driver.go:173-187 | `close()` can get past its first send exactly when the heartbeat goroutine is at its select or can still get there. |
| `PluginHistory.History` | libmachine/drivers/rpc/client_driver.go:121-224 | In every run, for every driver: the constructor failed at the handshake, failed at the configuration or succeeded exactly if that event occurred; the heartbeat goroutine exists exactly since the handshake, is in a call exactly between a tick and its outcome, and blocks itself exactly after a failed beat; the server is gone exactly if it timed out or was told to close; `execServer` is where its events have brought it. |
| `PluginHistory.DoomedNeverFinishes` | libmachine/drivers/rpc/client_driver.go:152-198 | After a failed handshake, a failed configuration or a failed heartbeat of a driver in the open list, no continuation ever finishes a `Close`. |
| `PluginHistory.FailedConfigExample` | libmachine/drivers/rpc/client_driver.go:189-196 | A failed configuration leads to a factory whose `Close` cannot finish. |
| `PluginHistory.NilPluginExample` | libmachine/drivers/rpc/client_driver.go:209-224 | And a `Close` that gets to that driver panics on its missing plugin. |
| `PluginHistory.FailedBeatExample` | libmachine/drivers/rpc/client_driver.go:173-187 | So does a failed heartbeat. |
| `PluginFinish.CanFinishIff` | libmachine/drivers/rpc/client_driver.go:106-198 | In every reachable state a `Close`, in progress or to come, can still finish exactly if it has not panicked and every opened driver is constructed or can still be, and its heartbeat goroutine has returned or can still get to its select. |
| `PluginFinish.FailedHandshakeExample` | libmachine/drivers/rpc/client_driver.go:152-171 | Two steps from the start to a factory whose `Close` cannot finish. |
| `PluginLiveness.UntilFinished` | libmachine/drivers/rpc/client_driver.go:106-119 | While a healthy `Close` is in progress its rank never rises, and its next step once enabled stays enabled until it is taken. |
| `PluginLiveness.CloseFinishes` | libmachine/drivers/rpc/client_driver.go:106-119 | If every opened driver's constructor succeeded and no heartbeat call fails, every fair behaviour reaches the end of `Close`: all heartbeat goroutines returned, all servers gone, all `execServer` loops left, the open list empty. |
| `PluginLiveness.CloseTellsEveryServer` | libmachine/drivers/rpc/client_driver.go:209-224 | If moreover no server runs into its timeout, every server was told to close. |
| `PluginHistory.UntoldExample` | libmachine/drivers/plugin/register_driver.go:51-62 | That hypothesis is needed: a run in which a server has timed out and `Close` finishes without telling it. |
| `PluginLiveness.ExecServerReturns` | libmachine/drivers/plugin/localbinary/plugin.go:203-216 | Every `execServer` of a driver that was shut down eventually returns. |
| `PluginLiveness.CloseMayReturnBeforeExecServer` | libmachine/drivers/plugin/localbinary/plugin.go:240-243 | A run from the start in which `Close` has finished and `execServer` is still waiting for the process. |
| `PluginFinish.WaitsForExecIff` | libmachine/drivers/rpc/client_driver.go:106-119 | For every `Close` in progress that can finish: every run that finishes it ends with the `execServer` loops of its drivers returned, exactly if they have all returned already. |
| `PluginFinish.CloseWaitsForExecIff` | libmachine/drivers/plugin/localbinary/plugin.go:203-243 | For one about to begin: exactly if no driver has been opened. |
| `HeartbeatTiming.Serve` | libmachine/drivers/plugin/register_driver.go:51-62 | The select loop exits in one of the ways that the relation between message times and exits allows. |
| `HeartbeatTiming.Beats` | libmachine/drivers/rpc/client_driver.go:173-187 | The heartbeat loop's beats arrive in order, each 5 s plus one reply and one request latency after the one before. |
| `HeartbeatTiming.SurvivesIff` | libmachine/drivers/plugin/register_driver.go:51-62 | The server outlives all beats, and exits exactly 10 s after the last, exactly when every gap is below 10 s. |
| `HeartbeatTiming.LatencyBudget` | libmachine/drivers/plugin/register_driver.go:18-20 | Client and server together: no timeout while beats keep coming exactly when set-up plus first request, and every reply plus next request, stays below 5 s; then exit 10 s after the last beat. |
| `HeartbeatTiming.LongGapKills` | libmachine/drivers/plugin/register_driver.go:51-62 | A gap of more than 10 s is never survived: every exit comes at most 10 s after the message before the gap. |
| `VBoxLifecycle.SafeMeans` | drivers/virtualbox/virtualbox.go:460-634 | In a safe trace `startvm` and `ipconfig` follow a last observation other than Running, `resume` one of Paused, and `unregistervm` one of Stopped or Saved or a successful poweroff with no observation since. |
| `VBoxLifecycle.Driver.GetState` | drivers/virtualbox/virtualbox.go:636-660 | Adds exactly one observation to the trace, or the report of a missing machine or of another error, and issues no command. |
| `VBoxLifecycle.Driver.Wait` | drivers/virtualbox/ip.go:21-36 | Issues no command; succeeds only after a non-empty address was found while Running, and stores the one found after that; it fails only if something went wrong. |
| `VBoxLifecycle.Driver.Start` | drivers/virtualbox/virtualbox.go:460-564 | Against any answers the trace stays safe; the first event decides which commands may be issued (none at all unless Stopped, Saved or Paused was seen). Success means: the last observed state is Running and the last address found is stored; one `resume` if it was Paused; port rules and one launch if it was Stopped or Saved; hardware virtualization was checked unless that is switched off; and for Stopped the NIC was attached, before any launch, and the VM was shut down and launched once more exactly if its adapter was not found intact. It fails only if something went wrong. |
| `VBoxLifecycle.Driver.SetupNetwork` | drivers/virtualbox/virtualbox.go:785-848 | Which commands the set-up issues: an adapter is created and configured exactly if none matches, orphaned servers are dealt with, the DHCP server is saved unless it is up to date, and the NIC attached. |
| `VBoxLifecycle.Driver.RemoveOrphans` | drivers/virtualbox/network.go:245-274 | Servers are removed exactly where there is an orphan, until there is none, whether or not a removal succeeds. |
| `VBoxLifecycle.Driver.SaveAdapter` | drivers/virtualbox/network.go:60-71 | Address and mask are configured once, DHCP exactly if the adapter is marked for it, and the error of that is ignored. |
| `VBoxLifecycle.Driver.Stop` | drivers/virtualbox/virtualbox.go:566-598 | Success means one `acpipowerbutton`, after one `resume` exactly if the first observed state was Paused, that the last observed state is not Running, and that the address is forgotten; nothing else is issued. |
| `VBoxLifecycle.Driver.Restart` | drivers/virtualbox/virtualbox.go:600-612 | The trace stays safe; success means that the VM was shut down at least once, that its address was waited for twice, by `Start` and again afterwards, that the last observed state is Running and that the last address found is stored. |
| `VBoxLifecycle.Driver.Kill` | drivers/virtualbox/virtualbox.go:614-616 | Only `poweroff` is issued; success means it succeeded once and nothing was observed since. |
| `VBoxLifecycle.Driver.Remove` | drivers/virtualbox/virtualbox.go:618-634 | The trace stays safe; a missing machine is a success at once; otherwise success means one `unregistervm`, after one `poweroff` exactly if the machine was not seen Stopped or Saved. |
| `VBoxLifecycle.Session` | drivers/virtualbox/virtualbox.go:460-634 | Any operations in any order with any answers keep the whole trace safe. |
| `HostOnlyNetwork.GetHostOnlyAdapter` | drivers/virtualbox/network.go:166-180 | Returns a listed adapter with the requested address and mask (or the mask VirtualBox misreports), or there is none. |
| `HostOnlyNetwork.PrefixedIff` | drivers/virtualbox/network.go:261-263 | The servers that may be removed are those whose name some adapter could have; all others survive. |
| `HostOnlyNetwork.WaitForNew` | drivers/virtualbox/network.go:216-243 | Returns an adapter that is visible now and was not in the old list, changes nothing but what is visible, and finds one if VirtualBox does not fail. |
| `HostOnlyNetwork.GetOrCreate` | drivers/virtualbox/network.go:182-214 | Returns an existing match, if there is one, with nothing changed; otherwise one absent from the old list that now has the requested address and mask, after which all addresses are distinct exactly if no listed adapter had that address; all listed adapters and all servers stay as they were. |
| `HostOnlyNetwork.RemoveOrphans` | drivers/virtualbox/network.go:245-274 | Exactly the prefixed servers without an adapter are removed, except those whose removal VirtualBox refuses; no other server changes; it fails if there are servers and two adapters have one address. |
| `HostOnlyNetwork.AddHostOnlyDHCPServer` | drivers/virtualbox/network.go:276-313 | On success the entry is the requested one, whether it was missing, different or already right, and every other entry is as it was; on failure nothing changed. |
| `HostOnlyNetwork.SetupHostOnlyNetwork` | drivers/virtualbox/virtualbox.go:785-848 | Success means: the adapter is an old match as it was or a new one just configured, the second NIC points at it, its DHCP entry is the requested one with a well placed address for the prefixes that allow it, and of the other servers exactly the orphans are gone that VirtualBox lets go; failure leaves the NIC alone. If VirtualBox does not fail by itself, it succeeds exactly unless two adapters had one address or, with any DHCP server around, an adapter had the requested address with another mask. |
| `HostOnlyNetwork.OtherMaskRun` | drivers/virtualbox/network.go:166-214 | Runs for every address and every two masks in which the set-up fails and no adapter can be listed any more. |
| `DhcpRange.ValidateCIDR` | drivers/virtualbox/virtualbox.go:874-886 | Accepts exactly the addresses that are not their own network address. |
| `DhcpRange.NetworkIsFloor` | drivers/virtualbox/virtualbox.go:874-886 | For every address and prefix the network address is the address rounded down to a multiple of 2^(32-p). |
| `DhcpRange.BroadcastIsLast` | drivers/virtualbox/virtualbox.go:850-872 | And the broadcast address is the last one before the next multiple. |
| `DhcpRange.RandomIPInSubnet` | drivers/virtualbox/virtualbox.go:960-979 | Takes the first of five draws that differs from the host's last octet, and fails exactly when all five equal it. |
| `DhcpRange.WellPlacedIff` | drivers/virtualbox/virtualbox.go:850-872 | Server and pool bounds lie in the subnet, in order, below the broadcast address, with server outside the pool and different from the host, exactly when the prefix is at most 24, or the network address ends in octet 0 and the draw is at most 2^(32-p) - 3. |
| `DhcpRange.SafeCIDRIff` | drivers/virtualbox/virtualbox.go:850-886 | All draws work out exactly for prefixes up to 24, and for 25 to 27 when the network address ends in octet 0. |
| `DhcpRange.HostInPoolIff` | drivers/virtualbox/virtualbox.go:850-872 | The exact condition under which the pool contains the host's own address. |
| `KeyValues.LinesOfUnlines` | drivers/virtualbox/vbm.go:143-165 | Scanning a text made of lines gives the lines back, with the line ends of Unix and with those of Windows. |
| `KeyValues.SplitOfPrinted` | drivers/virtualbox/vbm.go:26 | Key, colon, any white space and value split into key and value, for every non-empty key and every value without a colon before white space. |
| `KeyValues.TextRoundTrip` | drivers/virtualbox/vbm.go:143-165 | Printing pairs as text, with any padding per line and either kind of line end, and parsing the text hands the same pairs to the callback, in order. |
| `HostOnlyAdapters.FieldStep` | drivers/virtualbox/network.go:107-164 | What one more field does to the reference "blocks that end in a network name", both to the records and to whether the output is acceptable. |
| `HostOnlyAdapters.CloseRecord` | drivers/virtualbox/network.go:134-156 | Refuses a record exactly when its network name or its IP occurred before, and otherwise enters it in both indexes. |
| `HostOnlyAdapters.Callback` | drivers/virtualbox/network.go:112-158 | One turn of the callback refines one step of the reference, on heap records that no two keys share. |
| `HostOnlyAdapters.PrefixAcceptable` | drivers/virtualbox/network.go:107-164 | If a beginning of the output is refused, so is the whole. |
| `HostOnlyAdapters.ListHostOnlyAdapters` | drivers/virtualbox/network.go:107-164 | Succeeds exactly when every MAC parses and all network names and all IPs are pairwise distinct; the map then has exactly one entry per record of the reference, keyed by its network name, and no two keys share a record. |
| `AdapterRoundTrip.RecordsOfPrinted` | drivers/virtualbox/network.go:107-164 | The fields printed for a list of adapters read back as the same list of records. |
| `AdapterRoundTrip.PrintThenParse` | drivers/virtualbox/network.go:107-164 | The text printed for every list of adapters with distinct names and IPs, with any padding and either kind of line end, is accepted and read back as the same records. |
| `AdapterRoundTrip.ParsePrinted` | drivers/virtualbox/network.go:107-164 | The parser on that text returns exactly the map from network names to the printed records, on fresh, unshared records. |
| `IpCollisions.ListHostInterfaces` | drivers/virtualbox/network.go:354-396 | Succeeds exactly when all addresses can be asked for, and returns exactly the addresses of up, non-loopback interfaces that have no host-only address. |
| `IpCollisions.CheckCollision` | drivers/virtualbox/network.go:398-405 | Reports a collision exactly when some address has the host-only network's network address. |
| `IpCollisions.ValidateNoIPCollisions` | drivers/virtualbox/virtualbox.go:890-912 | Agrees with a direct scan over all interfaces and addresses: accepted exactly when nothing fails and no relevant address collides. |
| `Ifconfig.ParseIPForMAC` | drivers/virtualbox/virtualbox.go:693-742 | The flag-updating loop returns what the automaton over classified lines does. |
| `Ifconfig.NothingMatches` | drivers/virtualbox/virtualbox.go:741 | An error if no line carries the MAC address. |
| `Ifconfig.FirstMatchIsLink` | drivers/virtualbox/virtualbox.go:706-716 | If the first match is a `HWaddr` line the result is the first address after it, whatever came before. |
| `Ifconfig.FirstMatchIsEther` | drivers/virtualbox/virtualbox.go:717-725 | If it is an `ether` line the result is the last address before it, or else the first after it. |
| `Ifconfig.BusyboxFinds` | drivers/virtualbox/virtualbox.go:693-742 | On any sequence of blocks in busybox's layout: the first address of the matching block, or else of a later one. |
| `Ifconfig.NetToolsFinds` | drivers/virtualbox/virtualbox.go:693-742 | In the layout of net-tools: the last address of the matching block, or else of an earlier block, or else the first of a later one. |
| `Ifconfig.CrashesIff` | drivers/virtualbox/virtualbox.go:717-734 | The search panics exactly when it reaches a line at which it does, with nothing found in the lines before. |
| `Ifconfig.NotFoundIff` | drivers/virtualbox/virtualbox.go:693-742 | Nothing is found exactly if no line panics and no line has the MAC address, or the first that does is a `HWaddr` line without an address after it, or an `ether` line and there is no address at all. |
| `IfconfigText.BusyboxInetIs` | drivers/virtualbox/virtualbox.go:726-730 | An `inet addr:` line with something after the address yields the address, whatever that is. |
| `IfconfigText.NetToolsInetIs` | drivers/virtualbox/virtualbox.go:726-734 | So does an `inet` line of net-tools. |
| `IfconfigText.CutOffInetIff` | drivers/virtualbox/virtualbox.go:731-734 | An `inet` line of net-tools panics exactly if no space follows its address. |
| `IfconfigText.PanicsIff` | drivers/virtualbox/virtualbox.go:706-734 | Which lines panic, in terms of what occurs where in the text: `ether` and `inet` lines whose value is not followed by a space, or is missing. |
| `IfconfigText.BlankIff` | drivers/virtualbox/virtualbox.go:706-734 | Which lines are passed over, in terms of the text. |
| `IfconfigText.Inet6IsIgnored` | drivers/virtualbox/virtualbox.go:726 | IPv6 addresses are never taken for the address. |
| `IfconfigText.LinkLineIs` | drivers/virtualbox/virtualbox.go:706-716 | A `Link ... HWaddr` line yields the MAC address in lower case without colons. |
| `IfconfigText.EtherLineIs` | drivers/virtualbox/virtualbox.go:717-725 | So does an `ether` line, whatever follows the MAC address. |
| `IfconfigText.PlainMac` | drivers/virtualbox/virtualbox.go:709-713 | A MAC address printed in pairs with colons becomes the same digits in lower case without colons, as the driver gets them from VBoxManage. |
| `IfconfigText.AddressIsFound` | drivers/virtualbox/virtualbox.go:693-742 | In the text of either layout, for any number of interfaces, the search returns the address of the first interface with the MAC address. |
| `IfconfigText.NothingIsFound` | drivers/virtualbox/virtualbox.go:693-742 | And an error when no interface has it. |
| `HostListing.StepKeepsInv` | commands/ls.go:317-363 | Every step of query, timeout race, lock and main goroutine keeps the invariant of the listing. |
| `HostListing.OneItemPerHost` | commands/ls.go:317-363 | For every interleaving and every timeout outcome, items come from different hosts, and when the channel is closed every host has delivered exactly one and nobody is left to send. |
| `ListingHistory.WhichItem` | commands/ls.go:317-338 | In every run, for every item received: either its host's query was handed over or its timer fired, not both; it is the queried item in the first case, all calls of the query having returned, and the timed-out one in the second. |
| `HostListing.Progress` | commands/ls.go:341-363 | In every reachable unfinished state some step is enabled. |
| `HostListing.ListingEnds` | commands/ls.go:341-363 | If driver calls under the shared lock and calls for a driver name return, no run is longer than the initial rank, and a run that can only go on with the return of other driver calls has closed the channel. |
| `HostListing.HungCallBlocksTimeouts` | commands/ls.go:325-338 | While a serial driver's call hangs, a timed-out serial host never delivers and the listing never ends. |
| `HostListing.HungCallExample` | commands/ls.go:317-338 | A run into that state for every list and every serial host in it that is queried at all. |
| `HostListing.StuckIff` | commands/ls.go:317-363 | In a run after which nothing but the return of driver calls can happen, what is waited for, if the listing is not complete: the call for the driver name of a timed-out host. |
| `HostListing.CompletesIff` | commands/ls.go:317-363 | For every list of hosts: every run that can only go on with the return of query calls is complete, exactly if no host in the list is serial and queried by at least one call. |
| `HostListing.CompletesIfNamesHangIff` | commands/ls.go:325-338 | If calls for a driver name may hang as well, exactly the empty list is sure to be completed. |
| `StateShortcut.AttemptGetHostState` | commands/ls.go:266-291 | A listed URL means the VM was seen running, is listed as Running and without error. |
| `StateShortcut.UrlIff` | drivers/virtualbox/virtualbox.go:209-218 | The listed URL is that of the address found, and there is one exactly if a non-empty address was. |
| `StateShortcut.ListedError` | drivers/virtualbox/virtualbox.go:636-691 | The listed error is that of the first question that failed, in the words of the driver. |
| `StateShortcut.ListedStateIff` | commands/ls.go:266-291 | For a VM whose state does not change, and for every answer, the listed state is what `GetState` answers, except exactly when the VM runs and the lines of `ifconfig` have one that is cut off and no answer before it. |
| `StateShortcut.OutOfDateIff` | commands/ls.go:274-284 | For a VM that does change, the listed state is out of date exactly when there was a URL and the VM does not run any more. |
| `StateShortcut.NoErrorIff` | commands/ls.go:286-291 | A host is listed without error exactly when VBoxManage answers and the VM is not running, or runs and the lines of `ifconfig` hold its address: they are not without an answer and not cut off before it. |
| `StateShortcut.RunningButListedInError` | drivers/virtualbox/virtualbox.go:744-775 | Running machines whose `ifconfig` output begins with an address at the end of its line are listed in error. |
| `HostSort.SortByName` | commands/ls.go:374-386 | Rewrites the array, in place, into the items read off the name-keyed map in sorted order. |
| `HostSort.NamesPreserved` | commands/ls.go:374-386 | The lower-cased names come out in exactly the sorted order, and no item is invented. |
| `HostSort.ItemsPreservedIff` | commands/ls.go:374-386 | The multiset of items is preserved exactly when items with the same lower-cased name are equal. |
| `HostSort.DistinctNamesDecide` | commands/ls.go:374-386 | Which is so when lower-cased names are pairwise distinct. |
| `ConfigStore.StepIsIntact` | libmachine/persist/filestore.go:33-58 | Every state that the replacement goes through has the old bytes, the new bytes, or nothing while a temporary file has all new bytes. |
| `ConfigStore.SaveToFile` | libmachine/persist/filestore.go:33-58 | The result names the operation that failed, all before it having succeeded in their order; success leaves the new bytes, failure other than of the rename the old; in every state the file is intact as above, except the last one after a failed rename and a successful removal of the temporary file; no other file is touched. |
| `ConfigStore.LoadConfig` | libmachine/persist/filestore.go:110-141 | In no intermediate state, whichever step fails, are the original bytes in neither the config file nor its backup; a migration leaves the backup and the migrated bytes; loading fails only if an operation failed or the bytes cannot be migrated. |
| `RemoveCommand.CmdRm` | commands/rm.go:14-89 | For every argument list and every outcome of the calls: the calls made, the machines left and the errors collected are those of handling each argument in turn; an error is returned exactly when one was collected and force is off; without arguments or consent nothing is called. |
| `RemoveCommand.HandledMeans` | commands/rm.go:31-89 | Which means: remote removal is tried for every argument, whatever happened before, store removal exactly after a successful remote removal or with force; a machine is left exactly if it was there and, for each argument that names it, the remote removal failed without force or the store removal failed; errors are collected exactly if a removal that was tried failed. |
| `RemoveCommand.DuplicateIsAnError` | commands/rm.go:31-51 | Naming a machine twice always collects an error. |
| `DiskImage.ZeroFill` | drivers/virtualbox/disk.go:99-116 | Terminates for every `n`, has sent exactly `n` zeros exactly if the pipe takes them, and otherwise some number of zeros up to that. |
| `DiskImage.CreateDiskImage` | drivers/virtualbox/disk.go:44-97 | Exactly if the pipe takes them all, it carries the archive and then zeros, max(size * 2^20, archive length) bytes in all; otherwise a beginning of that. |
| `ProgressReader.Reader.Read` | libmachine/mcnutils/b2p.go:354-372 | The output stays a function of the bytes read so far and only grows; nothing is printed for an unknown length; it panics exactly on bytes of a body declared empty. |
| `ProgressReader.ReadAll` | libmachine/mcnutils/b2p.go:346-372 | However the bytes are cut into reads, the output is the marks up to floor(100 * total / expected). |
| `ProgressReader.MarksInOrder` | libmachine/mcnutils/b2p.go:361-368 | Those marks are one for every even percentage from 0 on, in order, and fewer bytes give a prefix. |

## Left out

- Process execution, ssh, HTTP, net/rpc, JSON, regular expressions, templates and the natural sort: library code. The
  split rule of `reColonLine` is written out; the sort is any permutation of the names.
- `vbmOutErrRetry`, version checks and the parsing of `list dhcpservers`: the models start from answers that succeeded or failed.
- Creation of VMs, certificates, provisioning, `env`, `scp`, `mount`, QEMU and the other drivers: these run commands in a fixed order or build texts, and keep no state over which something could be proved.
- Flag wiring and help texts: user interface.
- The temporary file and rename of `download`: the same argument as for config files.
- IPv6 host-only networks: the address arithmetic of the driver takes IPv4 addresses.
- The items that `ls` appends for hosts whose config could not be loaded: one more per host, without any query.
- The commands `upgrade`, `provision` and `configureAuth`: what they do is provisioning.
- HostCommands.StartOutcome: a guest whose /etc/os-release names no known provisioner counts as one on which that command failed, and the key path, of which the driver is asked a second time if there is one, is asked for once.
- HostOnlyNetwork.SetupHostOnlyNetwork: does not model `ipconfig --dhcp`, and takes the verdict of the collision test as a parameter; `IpCollisions` says what it is. Commands that succeed do what they say, and a new adapter has no address until it is configured.
- VBoxLifecycle.Driver.Start: takes the network set-up as the commands it issues; what they achieve is the subject of `HostOnlyNetwork`.
- ActionRunner.EveryInterleavingRefinesTheLoop: takes a driver call to depend only on its own machine, and the rest of a program only on the answers of its calls.
- ActionRunner.EveryRunEnds: driver calls return.
- PluginLiveness.CloseFinishes: a successful constructor and successful heartbeats are hypotheses, and scheduling is weakly fair; `PluginFinish.CanFinishIff` shows why they are needed. The constructor's dial and address exchange before the driver is registered are not modelled.
- ProgressReader.Reader.Read: is stated while 100 * bytes fits into 64 bits, which is up to 92 petabytes.
- IfconfigText.AddressIsFound: address lines do not contain the words `Link` or `ether`, nor those of net-tools `addr:`; on such lines the driver looks for something else.
- ConfigStore.SaveToFile: file contents and the steps of one process only; flushing to disk and concurrent processes are not modelled.
- RemoveCommand.CmdRm: a store removal that fails leaves the machine in the store.
