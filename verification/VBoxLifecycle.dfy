/** The VirtualBox driver's Start, Stop, Restart, Kill and Remove, against any answers of VBoxManage, ssh and
    the rest of the world. Every question takes the next answer from a script; when the script runs out the
    operation is still waiting (`Hung`), so the traces are all finite prefixes of all runs. */
module VBoxLifecycle {
  import opened Basics

  datatype Command =
    | StartVm | Resume | AcpiPowerButton | PowerOff | Unregister
    | CreateAdapter | IpConfig | IpConfigDhcp | RemoveServer | SaveServer | AttachNic | PortRule

  /** One answer: whether the question was answered without error, and with what. */
  datatype Answer = Answer(ok: bool, notFound: bool, state: VmState, yes: bool, text: string)

  /** What a run leaves behind: observations of the VM, commands, the answers on which an operation decides, and what
      went wrong besides. */
  datatype Event =
    | Saw(state: VmState)
    | SawError(notFound: bool)
    | Issued(cmd: Command, ok: bool)
    | Address(ip: string)           // an address of the guest was found, possibly the empty text
    | Vtx(disabled: bool)           // hardware virtualization, as the VM's log has it
    | Matching(yes: bool)           // whether an adapter with the requested address and mask is listed
    | Appeared                      // a new adapter is listed
    | HasDhcp(yes: bool)            // whether the new adapter is marked for DHCP
    | Orphan(yes: bool)             // whether there is one more DHCP server without an adapter
    | UpToDate(yes: bool)           // whether the adapter's DHCP server is as requested
    | Intact(yes: bool)             // whether, after the start, the adapter is still listed
    | Refused                       // some other question was answered with an error
    | GaveUp                        // waiting was given up, or made no sense

  datatype Outcome = Done | Failed | NotExist | Hung {
    predicate IsFailure() { !Done? }
    function PropagateFailure(): Outcome requires IsFailure() { this }
  }

  // ----- properties of traces

  /** When a command may be issued, given the state last observed and whether a poweroff has succeeded since. */
  predicate Allowed(cmd: Command, seen: Option<VmState>, killed: bool) {
    match cmd
    case StartVm => seen.Some? && seen.value != Running
    case IpConfig => seen.Some? && seen.value != Running
    case IpConfigDhcp => seen.Some? && seen.value != Running
    case Resume => seen == Some(Paused)
    case Unregister => killed || seen == Some(Stopped) || seen == Some(Saved)
    case _ => true
  }

  /** How often each command was issued. */
  datatype Tally = Tally(
    startVm: nat, resume: nat, acpi: nat, powerOff: nat, unregister: nat,
    createAdapter: nat, ipConfig: nat, ipDhcp: nat, removeServer: nat, saveServer: nat, attachNic: nat, portRule: nat)
  {
    function Plus(c: Command): Tally {
      match c
      case StartVm => this.(startVm := startVm + 1)
      case Resume => this.(resume := resume + 1)
      case AcpiPowerButton => this.(acpi := acpi + 1)
      case PowerOff => this.(powerOff := powerOff + 1)
      case Unregister => this.(unregister := unregister + 1)
      case CreateAdapter => this.(createAdapter := createAdapter + 1)
      case IpConfig => this.(ipConfig := ipConfig + 1)
      case IpConfigDhcp => this.(ipDhcp := ipDhcp + 1)
      case RemoveServer => this.(removeServer := removeServer + 1)
      case SaveServer => this.(saveServer := saveServer + 1)
      case AttachNic => this.(attachNic := attachNic + 1)
      case PortRule => this.(portRule := portRule + 1)
    }
  }

  /** A set of commands. */
  datatype Commands = Commands(
    startVm: bool, resume: bool, acpi: bool, powerOff: bool, unregister: bool,
    createAdapter: bool, ipConfig: bool, ipDhcp: bool, removeServer: bool, saveServer: bool, attachNic: bool,
    portRule: bool)

  const NONE := Commands(false, false, false, false, false, false, false, false, false, false, false, false)

  const BOOTING := NONE.(startVm := true, portRule := true)
  const REPAIRING := NONE.(startVm := true, resume := true, acpi := true, ipConfig := true)
  const STARTING := Commands(true, true, true, false, false, true, true, true, true, true, true, true)
  const NETWORKING :=
    NONE.(createAdapter := true, ipConfig := true, ipDhcp := true,
          removeServer := true, saveServer := true, attachNic := true)

  /** The tallies differ in nothing but the commands that `mask` marks. */
  predicate SameBut(t: Tally, u: Tally, mask: Commands) {
    && (mask.startVm || t.startVm == u.startVm)
    && (mask.resume || t.resume == u.resume)
    && (mask.acpi || t.acpi == u.acpi)
    && (mask.powerOff || t.powerOff == u.powerOff)
    && (mask.unregister || t.unregister == u.unregister)
    && (mask.createAdapter || t.createAdapter == u.createAdapter)
    && (mask.ipConfig || t.ipConfig == u.ipConfig)
    && (mask.ipDhcp || t.ipDhcp == u.ipDhcp)
    && (mask.removeServer || t.removeServer == u.removeServer)
    && (mask.saveServer || t.saveServer == u.saveServer)
    && (mask.attachNic || t.attachNic == u.attachNic)
    && (mask.portRule || t.portRule == u.portRule)
  }

  const NOTHING := Tally(0, 0, 0, 0, 0, 0, 0, 0, 0, 0, 0, 0)

  /** A trace in brief: the state last observed, whether a poweroff has succeeded since, whether every command was
      allowed when it was issued, how often each was issued and succeeded, and how often something went wrong. */
  datatype Summary = Summary(
    seen: Option<VmState>, killed: bool, safe: bool, tries: Tally, successes: Tally, troubles: nat)

  function Extend(m: Summary, e: Event): Summary {
    match e
    case Saw(s) => m.(seen := Some(s), killed := false)
    case SawError(_) => m.(troubles := m.troubles + 1)
    case Issued(c, ok) =>
      Summary(m.seen, m.killed || (ok && c == PowerOff), m.safe && Allowed(c, m.seen, m.killed),
              m.tries.Plus(c), if ok then m.successes.Plus(c) else m.successes,
              if ok then m.troubles else m.troubles + 1)
    case Address(_) => m
    case Vtx(disabled) => if disabled then m.(troubles := m.troubles + 1) else m
    case Matching(_) => m
    case Appeared => m
    case HasDhcp(_) => m
    case Orphan(_) => m
    case UpToDate(_) => m
    case Intact(_) => m
    case Refused => m.(troubles := m.troubles + 1)
    case GaveUp => m.(troubles := m.troubles + 1)
  }

  /** The first `n` events in brief. */
  function UpTo(t: seq<Event>, n: nat): Summary
    requires n <= |t|
  {
    if n == 0 then Summary(None, false, true, NOTHING, NOTHING, 0) else Extend(UpTo(t, n - 1), t[n - 1])
  }

  function Summarize(t: seq<Event>): Summary {
    UpTo(t, |t|)
  }

  lemma {:induction false} SameUpTo(t: seq<Event>, t': seq<Event>, n: nat)
    requires n <= |t| && t <= t'
    ensures UpTo(t, n) == UpTo(t', n)
  {
    if n > 0 { SameUpTo(t, t', n - 1); }
  }

  lemma OneMore(t: seq<Event>, e: Event)
    ensures Summarize(t + [e]) == Extend(Summarize(t), e)
  {
    SameUpTo(t, t + [e], |t|);
  }

  /** What `safe` says about each command, without recursion: the last observation before it is there, and no
      other observation lies between. */
  lemma SafeMeans(t: seq<Event>, i: nat)
    requires Summarize(t).safe && i < |t| && t[i].Issued?
    ensures t[i].cmd == StartVm || t[i].cmd == IpConfig ==> exists j :: IsLastSight(t, j, i) && t[j].state != Running
    ensures t[i].cmd == Resume ==> exists j :: IsLastSight(t, j, i) && t[j].state == Paused
    ensures t[i].cmd == Unregister ==>
              (exists j :: IsLastSight(t, j, i) && (t[j].state == Stopped || t[j].state == Saved))
              || (exists k :: 0 <= k < i && t[k] == Issued(PowerOff, true) && forall m :: k < m < i ==> !t[m].Saw?)
  {
    SafeSoFar(t, i + 1, |t|);
    SeenMeans(t, i);
    KilledMeans(t, i);
  }

  lemma {:induction false} SafeSoFar(t: seq<Event>, i: nat, n: nat)
    requires i <= n <= |t| && UpTo(t, n).safe
    ensures UpTo(t, i).safe
  {
    if i < n { SafeSoFar(t, i, n - 1); }
  }

  ghost predicate IsLastSight(t: seq<Event>, j: int, i: int) {
    0 <= j < i <= |t| && t[j].Saw? && forall m :: j < m < i ==> !t[m].Saw?
  }

  lemma {:induction false} SeenMeans(t: seq<Event>, i: nat)
    requires i <= |t|
    ensures UpTo(t, i).seen.Some? ==>
              exists j :: IsLastSight(t, j, i) && t[j].state == UpTo(t, i).seen.value
  {
    if i > 0 {
      if t[i - 1].Saw? {
        assert IsLastSight(t, i - 1, i);
      } else {
        SeenMeans(t, i - 1);
        assert forall j :: IsLastSight(t, j, i - 1) ==> IsLastSight(t, j, i);
      }
    }
  }

  lemma {:induction false} KilledMeans(t: seq<Event>, i: nat)
    requires i <= |t|
    ensures UpTo(t, i).killed ==>
              exists k :: 0 <= k < i && t[k] == Issued(PowerOff, true) && forall m :: k < m < i ==> !t[m].Saw?
  {
    if i > 0 && UpTo(t, i).killed {
      if t[i - 1] == Issued(PowerOff, true) {
      } else {
        KilledMeans(t, i - 1);
      }
    }
  }

  // ----- segments of traces

  /** An address that is not empty was found, and then, last of all, one that was stored. */
  ghost predicate Waited(t: seq<Event>, from: nat, to: nat) {
    && from < to <= |t| && t[to - 1].Address?
    && exists i :: from <= i < to - 1 && t[i].Address? && t[i].ip != ""
  }

  /** The last address found is `ip`. */
  ghost predicate LastAddress(t: seq<Event>, ip: string) {
    exists i :: 0 <= i < |t| && t[i] == Address(ip) && forall j :: i < j < |t| ==> !t[j].Address?
  }

  ghost predicate Has(t: seq<Event>, from: nat, e: Event) {
    exists i :: from <= i < |t| && t[i] == e
  }

  /** The adapter's DHCP server was up to date, or has been made so. */
  ghost predicate ServerSet(t: seq<Event>, from: nat) {
    exists i :: from <= i < |t| &&
      (t[i] == UpToDate(true) || (t[i] == UpToDate(false) && i + 1 < |t| && t[i + 1] == Issued(SaveServer, true)))
  }

  /** Servers are removed exactly where there is an orphan, until there is none. */
  ghost predicate OrphansOnly(t: seq<Event>, from: nat) {
    && (forall j :: from <= j < |t| && t[j].Issued? && t[j].cmd == RemoveServer ==>
          from < j && t[j - 1] == Orphan(true))
    && (forall i :: from <= i < |t| - 1 && t[i] == Orphan(true) ==> t[i + 1].Issued? && t[i + 1].cmd == RemoveServer)
  }

  /** What one turn of that adds to a trace. */
  ghost predicate OrphanTurn(t: seq<Event>, t': seq<Event>) {
    || t' == t || t' == t + [Refused] || t' == t + [Orphan(false)] || t' == t + [Orphan(true)]
    || exists ok :: t' == t + [Orphan(true)] + [Issued(RemoveServer, ok)]
  }

  lemma OrphansStep(t: seq<Event>, t': seq<Event>, from: nat)
    requires from <= |t| && OrphansOnly(t, from) && (|t| > from ==> t[|t| - 1] != Orphan(true)) && OrphanTurn(t, t')
    ensures OrphansOnly(t', from)
  {
    assert t <= t';
    assert forall j :: 0 <= j < |t| ==> t'[j] == t[j];
  }

  /** Every command `cmd` from `from` on comes after a successful `before`, itself not earlier than `from`. */
  ghost predicate OnlyAfter(t: seq<Event>, from: nat, cmd: Command, before: Command) {
    forall j :: from <= j < |t| && t[j].Issued? && t[j].cmd == cmd ==>
      exists i :: from <= i < j && t[i] == Issued(before, true)
  }

  lemma WaitedEarlier(t: seq<Event>, from: nat, from': nat)
    requires from <= from'
    ensures Waited(t, from', |t|) ==> Waited(t, from, |t|)
  {
  }

  lemma WaitedLater(t: seq<Event>, t': seq<Event>, from: nat, to: nat)
    requires t <= t'
    ensures Waited(t, from, to) ==> Waited(t', from, to)
  {
    if Waited(t, from, to) {
      var i :| from <= i < to - 1 && t[i].Address? && t[i].ip != "";
      assert t'[i] == t[i] && t'[to - 1] == t[to - 1];
    }
  }

  lemma ServerSetEarlier(t: seq<Event>, from: nat, from': nat)
    requires from <= from'
    ensures ServerSet(t, from') ==> ServerSet(t, from)
  {
  }

  lemma HasEarlier(t: seq<Event>, from: nat, from': nat, e: Event)
    requires from <= from'
    ensures Has(t, from', e) ==> Has(t, from, e)
  {
  }

  lemma HasLater(t: seq<Event>, t': seq<Event>, from: nat, e: Event)
    requires t <= t'
    ensures Has(t, from, e) ==> Has(t', from, e)
  {
    if i :| from <= i < |t| && t[i] == e { assert t'[i] == e; }
  }

  ghost predicate NoLaunch(t: seq<Event>, from: nat, to: nat) {
    forall j :: from <= j < to && j < |t| ==> !(t[j].Issued? && t[j].cmd == StartVm)
  }

  /** Nothing was launched before `mid`, and a NIC attached by then. */
  lemma AttachedFirst(t: seq<Event>, t': seq<Event>, from: nat)
    requires t <= t' && NoLaunch(t, from, |t|) && Has(t, from, Issued(AttachNic, true))
    ensures OnlyAfter(t', from, StartVm, AttachNic)
  {
    var i :| from <= i < |t| && t[i] == Issued(AttachNic, true);
    forall j | from <= j < |t'| && t'[j].Issued? && t'[j].cmd == StartVm
      ensures i < j && t'[i] == Issued(AttachNic, true)
    {
      assert t'[..|t|] == t;
    }
  }

  lemma OnlyAfterEarlier(t: seq<Event>, from: nat, from': nat)
    requires from <= from' && NoLaunch(t, from, from')
    ensures OnlyAfter(t, from', StartVm, AttachNic) ==> OnlyAfter(t, from, StartVm, AttachNic)
  {
    if OnlyAfter(t, from', StartVm, AttachNic) {
      forall j | from <= j < |t| && t[j].Issued? && t[j].cmd == StartVm
        ensures exists i :: from <= i < j && t[i] == Issued(AttachNic, true)
      {
        assert from' <= j;
        var i :| from' <= i < j && t[i] == Issued(AttachNic, true);
      }
    }
  }

  lemma OnlyAfterLater(t: seq<Event>, t': seq<Event>, from: nat)
    requires t <= t' && OnlyAfter(t, from, StartVm, AttachNic) && Has(t, from, Issued(AttachNic, true))
    ensures OnlyAfter(t', from, StartVm, AttachNic)
  {
    var k :| from <= k < |t| && t[k] == Issued(AttachNic, true);
    forall j | from <= j < |t'| && t'[j].Issued? && t'[j].cmd == StartVm
      ensures exists i :: from <= i < j && t'[i] == Issued(AttachNic, true)
    {
      if j < |t| {
        assert t[j] == t'[j];
        var i :| from <= i < j && t[i] == Issued(AttachNic, true);
        assert t'[i] == t[i];
      } else {
        assert t'[k] == t[k];
      }
    }
  }

  /** Where the number of launches has not changed, none was issued. */
  lemma NoneIssued(t: seq<Event>, t': seq<Event>)
    requires t <= t' && Summarize(t).tries.startVm == Summarize(t').tries.startVm
    ensures NoLaunch(t', |t|, |t'|)
  {
    SameUpTo(t, t', |t|);
    Launches(t', |t|, |t'|);
  }

  lemma {:induction false} Launches(t: seq<Event>, m: nat, n: nat)
    requires m <= n <= |t|
    ensures UpTo(t, m).tries.startVm <= UpTo(t, n).tries.startVm
    ensures UpTo(t, m).tries.startVm == UpTo(t, n).tries.startVm ==> NoLaunch(t, m, n)
  {
    if m < n { Launches(t, m, n - 1); }
  }

  /** Where the number of NICs attached has grown, there is one. */
  lemma SomeIssued(t: seq<Event>, t': seq<Event>)
    requires t <= t'
    ensures Summarize(t).successes.attachNic != Summarize(t').successes.attachNic ==>
              Has(t', |t|, Issued(AttachNic, true))
  {
    SameUpTo(t, t', |t|);
    if Summarize(t).successes.attachNic != Summarize(t').successes.attachNic { Attachments(t', |t|, |t'|); }
  }

  lemma {:induction false} Attachments(t: seq<Event>, m: nat, n: nat)
    requires m <= n <= |t| && UpTo(t, m).successes.attachNic != UpTo(t, n).successes.attachNic
    ensures Has(t, m, Issued(AttachNic, true))
  {
    if t[n - 1] != Issued(AttachNic, true) { Attachments(t, m, n - 1); }
  }

  // ----- the driver

  class Driver {
    var answers: seq<Answer>
    var trace: seq<Event>
    ghost var sum: Summary
    var ipAddress: string
    const noVtxCheck: bool

    ghost predicate Valid()
      reads this
    {
      sum == Summarize(trace)
    }

    /** What every operation keeps: the script is used up from the front, and the trace only grows. With outcome `o`: an
        operation fails only if something went wrong. */
    twostate predicate Proceeds(o: Outcome)
      reads this
    {
      && Valid() && |answers| <= |old(answers)| && old(trace) <= trace
      && old(sum).troubles <= sum.troubles
      && (o == Failed || o == NotExist ==> old(sum).troubles < sum.troubles)
    }

    /** No command other than those that `mask` marks has been issued since the summary was `before`. */
    ghost predicate Only(before: Summary, mask: Commands)
      reads this
    {
      SameBut(sum.tries, before.tries, mask) && SameBut(sum.successes, before.successes, mask)
    }

    method Record(e: Event)
      requires Valid()
      modifies this`trace, this`sum
      ensures Valid() && trace == old(trace) + [e] && sum == Extend(old(sum), e)
    {
      OneMore(trace, e);
      trace := trace + [e];
      sum := Extend(sum, e);
    }

    /** The next answer of the script. */
    method Next() returns (o: Outcome, a: Answer)
      modifies this`answers
      ensures o == Hung <==> old(answers) == []
      ensures answers == if o == Hung then [] else old(answers)[1..]
      ensures o != Hung ==> a == old(answers)[0] && o == if a.ok then Done else Failed
    {
      if answers == [] {
        return Hung, Answer(false, false, NoState, false, "");
      }
      a := answers[0];
      answers := answers[1..];
      o := if a.ok then Done else Failed;
    }

    /** A question to something other than VBoxManage, or one that neither shows nor changes the VM's state. */
    method Ask() returns (o: Outcome, a: Answer)
      requires Valid()
      modifies this`answers, this`trace, this`sum
      ensures Proceeds(o) && (o == Done || o == Failed || o == Hung)
      ensures o != Hung ==> old(answers) != [] && answers == old(answers)[1..] && a == old(answers)[0]
      ensures o != Hung ==> o == if a.ok then Done else Failed
      ensures trace == if o == Failed then old(trace) + [Refused] else old(trace)
      ensures sum == if o == Failed then Extend(old(sum), Refused) else old(sum)
    {
      o, a := Next();
      if o == Failed { Record(Refused); }
    }

    /** `n` such questions in a row, up to the first error; the answer is that of the last one. */
    method AskInARow(n: nat) returns (o: Outcome, a: Answer)
      requires Valid()
      modifies this`answers, this`trace, this`sum
      ensures Proceeds(o) && (o == Done || o == Failed || o == Hung)
      ensures o == Done ==> n <= |old(answers)| && answers == old(answers)[n..] && (n > 0 ==> a == old(answers)[n - 1])
      ensures trace == if o == Failed then old(trace) + [Refused] else old(trace)
      ensures sum == if o == Failed then Extend(old(sum), Refused) else old(sum)
    {
      o, a := Done, Answer(true, false, NoState, false, "");
      for i := 0 to n
        invariant i <= |old(answers)| && answers == old(answers)[i..] && (i > 0 ==> a == old(answers)[i - 1])
        invariant o == Done && trace == old(trace) && sum == old(sum)
      {
        a :- Ask();
      }
    }

    /** `showvminfo` and the regular expression on its output. */
    method GetState() returns (o: Outcome, s: VmState)
      requires Valid()
      modifies this`answers, this`trace, this`sum
      ensures Proceeds(o) && (o != Hung ==> |answers| < |old(answers)|)
      ensures o == Done ==> old(answers)[0].ok && s == old(answers)[0].state
      ensures o == Failed || o == NotExist ==> !old(answers)[0].ok && (o == NotExist <==> old(answers)[0].notFound)
      ensures o != Hung ==> answers == old(answers)[1..]
      ensures sum == match o
                     case Done => old(sum).(seen := Some(s), killed := false)
                     case Hung => old(sum)
                     case _ => old(sum).(troubles := old(sum).troubles + 1)
      ensures trace == match o
                       case Done => old(trace) + [Saw(s)]
                       case Hung => old(trace)
                       case NotExist => old(trace) + [SawError(true)]
                       case Failed => old(trace) + [SawError(false)]
    {
      var a;
      o, a := Next();
      s := a.state;
      if o == Done {
        Record(Saw(s));
      } else if o == Failed {
        Record(SawError(a.notFound));
        o := if a.notFound then NotExist else Failed;
      }
    }

    method Vbm(cmd: Command) returns (o: Outcome)
      requires Valid()
      modifies this`answers, this`trace, this`sum
      ensures Proceeds(o) && (o == Done || o == Failed || o == Hung)
      ensures o != Hung ==> old(answers) != [] && answers == old(answers)[1..] && (o == Done <==> old(answers)[0].ok)
      ensures sum == if o == Hung then old(sum) else Extend(old(sum), Issued(cmd, o == Done))
      ensures trace == if o == Hung then old(trace) else old(trace) + [Issued(cmd, o == Done)]
    {
      var a;
      o, a := Next();
      if o != Hung { Record(Issued(cmd, o == Done)); }
    }

    // ----- waiting for an address

    method GetIP() returns (o: Outcome, ip: string)
      requires Valid()
      modifies this`answers, this`trace, this`sum
      ensures Proceeds(o) && (old(sum).safe ==> sum.safe)
      ensures Only(old(sum), NONE)
      ensures o == Done ==> sum.seen == Some(Running) && trace == old(trace) + [Saw(Running)] + [Address(ip)]
      ensures |trace| <= |old(trace)| + 2
      ensures o == Done ==> |old(answers)| >= 4 && ip == old(answers)[3].text
      ensures o == Failed || o == NotExist ==> |trace| > |old(trace)|
      ensures o != Done ==> ip == ""
      ensures forall i :: |old(trace)| <= i < |trace| && trace[i].Address? ==> o == Done && i == |trace| - 1
    {
      ip := "";
      var s :- GetState();
      if s != Running {
        Record(GaveUp);
        return Failed, "";
      }
      var parsed :- AskInARow(3);       // MAC address, ifconfig over ssh, parsing
      Record(Address(parsed.text));
      return Done, parsed.text;
    }

    /** The five attempts to see an address. */
    method AwaitAddress() returns (o: Outcome)
      requires Valid()
      modifies this`answers, this`trace, this`sum
      ensures Proceeds(o) && (old(sum).safe ==> sum.safe) && Only(old(sum), NONE)
      ensures o == Done || o == Failed || o == Hung
      ensures o == Done ==> |trace| > |old(trace)| && trace[|trace| - 1].Address? && trace[|trace| - 1].ip != ""
      ensures o != Done ==> forall i :: |old(trace)| <= i < |trace| && trace[i].Address? ==> trace[i].ip == ""
      ensures o == Failed ==> |trace| > |old(trace)| + 5
      ensures |trace| <= |old(trace)| + 11
    {
      var i := 0;
      while i < 5
        invariant 0 <= i <= 5 && |old(trace)| + i <= |trace| <= |old(trace)| + 2 * i
        invariant Proceeds(Done) && (old(sum).safe ==> sum.safe) && Only(old(sum), NONE)
        invariant forall k :: |old(trace)| <= k < |trace| && trace[k].Address? ==> trace[k].ip == ""
      {
        var ip;
        o, ip := GetIP();
        if o == Hung { return; }
        if o == Done && ip != "" { return; }
        i := i + 1;
      }
      Record(GaveUp);
      o := Failed;
    }

    /** `sshIPWaiter.Wait`: ssh, then up to five attempts to see an address, then one to store it. */
    method Wait() returns (o: Outcome)
      requires Valid()
      modifies this`answers, this`trace, this`sum, this`ipAddress
      ensures Proceeds(o) && (old(sum).safe ==> sum.safe)
      ensures Only(old(sum), NONE)
      ensures o == Done ==> sum.seen == Some(Running) && Waited(trace, |old(trace)|, |trace|)
      ensures o == Done ==> trace[|trace| - 1] == Address(ipAddress)
      ensures o != Done ==> ipAddress == old(ipAddress) || ipAddress == ""
    {
      var ssh :- Ask();
      :- AwaitAddress();
      ghost var seen := |trace| - 1;
      o, ipAddress := GetIP();
      assert trace[seen].Address? && trace[seen].ip != "";
    }

    // ----- the network, as far as VBoxManage commands go

    /** `setupHostOnlyNetwork`: creates and configures an adapter exactly if none matches, removes orphaned DHCP
        servers, and sets up the adapter's server and the second NIC. */
    method SetupNetwork() returns (o: Outcome)
      requires Valid()
      modifies this`answers, this`trace, this`sum
      ensures Proceeds(o) && sum.seen == old(sum).seen
      ensures old(sum).safe && Allowed(IpConfig, old(sum).seen, false) ==> sum.safe
      ensures Only(old(sum), NETWORKING)
      ensures o == Done ==> sum.successes.attachNic == old(sum).successes.attachNic + 1
      ensures o == Done ==>
                && |trace| > |old(trace)| && trace[|old(trace)|].Matching?
                && if trace[|old(trace)|].yes then
                     Only(old(sum), NONE.(removeServer := true, saveServer := true, attachNic := true))
                   else
                     && sum.tries.createAdapter == old(sum).tries.createAdapter + 1
                     && sum.successes.ipConfig == old(sum).successes.ipConfig + 1
      ensures o == Done ==> Has(trace, |old(trace)|, Orphan(false)) && ServerSet(trace, |old(trace)|)
    {
      o := FindOrCreate();
      if o != Done { return; }
      ghost var t := trace;
      o := CleanUpAndServe();
      ServerSetEarlier(trace, |old(trace)|, |t|);
      HasEarlier(trace, |old(trace)|, |t|, Orphan(false));
    }

    /** `getOrCreateHostOnlyNetwork`, with what comes before it. */
    method FindOrCreate() returns (o: Outcome)
      requires Valid()
      modifies this`answers, this`trace, this`sum
      ensures Proceeds(o) && sum.seen == old(sum).seen
      ensures old(sum).safe && Allowed(IpConfig, old(sum).seen, false) ==> sum.safe
      ensures Only(old(sum), NONE.(createAdapter := true, ipConfig := true, ipDhcp := true))
      ensures o == Done ==>
                && |trace| > |old(trace)| && |old(answers)| >= 4 && trace[|old(trace)|] == Matching(old(answers)[3].yes)
                && if trace[|old(trace)|].yes then Only(old(sum), NONE)
                   else
                     && sum.tries.createAdapter == old(sum).tries.createAdapter + 1
                     && sum.successes.ipConfig == old(sum).successes.ipConfig + 1
    {
      var existing :- AskInARow(4);     // CIDR, adapters, collisions, matching adapter
      Record(Matching(existing.yes));
      o := Done;
      if !existing.yes { o := NewAdapter(); }
    }

    method CleanUpAndServe() returns (o: Outcome)
      requires Valid()
      modifies this`answers, this`trace, this`sum
      ensures Proceeds(o) && sum.seen == old(sum).seen && (old(sum).safe ==> sum.safe)
      ensures Only(old(sum), NONE.(removeServer := true, saveServer := true, attachNic := true))
      ensures o == Done ==> sum.successes.attachNic == old(sum).successes.attachNic + 1
      ensures o == Done ==> Has(trace, |old(trace)|, Orphan(false)) && ServerSet(trace, |old(trace)|)
    {
      o := RemoveOrphans();
      if o != Done { return; }
      ghost var t := trace;
      o := AttachDhcp();
      ServerSetEarlier(trace, |old(trace)|, |t|);
      HasLater(t, trace, |old(trace)|, Orphan(false));
    }

    method AttachDhcp() returns (o: Outcome)
      requires Valid()
      modifies this`answers, this`trace, this`sum
      ensures Proceeds(o) && sum.seen == old(sum).seen && (old(sum).safe ==> sum.safe)
      ensures Only(old(sum), NONE.(saveServer := true, attachNic := true))
      ensures o == Done ==> sum.successes.attachNic == old(sum).successes.attachNic + 1
      ensures o == Done ==> ServerSet(trace, |old(trace)|)
    {
      o := SetServer();
      if o != Done { return; }
      ghost var n := |old(trace)|;
      assert trace[n] == UpToDate(true) || (trace[n] == UpToDate(false) && trace[n + 1] == Issued(SaveServer, true));
      ghost var t := trace;
      o := Vbm(AttachNic);
      assert trace[n] == t[n] && (|t| > n + 1 ==> trace[n + 1] == t[n + 1]);
    }

    /** `addHostOnlyDHCPServer`: a server that is not as requested is made so. */
    method SetServer() returns (o: Outcome)
      requires Valid()
      modifies this`answers, this`trace, this`sum
      ensures Proceeds(o) && sum.seen == old(sum).seen && (old(sum).safe ==> sum.safe)
      ensures Only(old(sum), NONE.(saveServer := true)) && (o == Done || o == Failed || o == Hung)
      ensures o == Done ==>
                && |old(answers)| >= 2
                && |trace| > |old(trace)| && trace[|old(trace)|] == UpToDate(old(answers)[1].yes)
      ensures o == Done ==>
                || trace == old(trace) + [UpToDate(true)]
                || trace == old(trace) + [UpToDate(false)] + [Issued(SaveServer, true)]
    {
      var upToDate :- AskInARow(2);     // random address, servers
      Record(UpToDate(upToDate.yes));
      o := Done;
      if !upToDate.yes { o := Vbm(SaveServer); }
    }

    /** The new adapter is configured once it is listed. */
    method NewAdapter() returns (o: Outcome)
      requires Valid()
      modifies this`answers, this`trace, this`sum
      ensures Proceeds(o) && sum.seen == old(sum).seen
      ensures old(sum).safe && Allowed(IpConfig, old(sum).seen, false) ==> sum.safe
      ensures Only(old(sum), NONE.(createAdapter := true, ipConfig := true, ipDhcp := true))
      ensures o == Done ==> sum.successes.ipConfig == old(sum).successes.ipConfig + 1
      ensures o == Done ==> sum.tries.createAdapter == old(sum).tries.createAdapter + 1
      ensures o == Done ==> Has(trace, |old(trace)|, Appeared)
    {
      o := Vbm(CreateAdapter);          // an error is only logged
      if o == Hung { return; }
      :- WaitForNewAdapter();
      ghost var t := trace;
      assert t[|t| - 1] == Appeared;
      o := SaveAdapter();
      HasLater(t, trace, |old(trace)|, Appeared);
    }

    /** `hostOnlyNetwork.Save`: the error of the second command is ignored. */
    method SaveAdapter() returns (o: Outcome)
      requires Valid()
      modifies this`answers, this`trace, this`sum
      ensures Proceeds(o) && sum.seen == old(sum).seen
      ensures old(sum).safe && Allowed(IpConfig, old(sum).seen, false) ==> sum.safe
      ensures Only(old(sum), NONE.(ipConfig := true, ipDhcp := true))
      ensures o == Done ==> sum.successes.ipConfig == old(sum).successes.ipConfig + 1
      ensures o == Failed ==> sum.tries.ipDhcp == old(sum).tries.ipDhcp
      ensures o == Done ==>
                && |trace| > |old(trace)| + 1 && |old(answers)| >= 2
                && trace[|old(trace)| + 1] == HasDhcp(old(answers)[1].yes)
                && sum.tries.ipDhcp == old(sum).tries.ipDhcp + if trace[|old(trace)| + 1].yes then 1 else 0
    {
      o := Vbm(IpConfig);
      if o != Done { return; }
      o := SaveDhcp();
    }

    method SaveDhcp() returns (o: Outcome)
      requires Valid()
      modifies this`answers, this`trace, this`sum
      ensures Proceeds(o) && sum.seen == old(sum).seen
      ensures old(sum).safe && Allowed(IpConfig, old(sum).seen, false) ==> sum.safe
      ensures Only(old(sum), NONE.(ipDhcp := true))
      ensures o == Failed ==> sum.tries.ipDhcp == old(sum).tries.ipDhcp
      ensures o == Done ==>
                && |trace| > |old(trace)| && old(answers) != [] && trace[|old(trace)|] == HasDhcp(old(answers)[0].yes)
                && sum.tries.ipDhcp == old(sum).tries.ipDhcp + if trace[|old(trace)|].yes then 1 else 0
    {
      var dhcp :- Ask();
      Record(HasDhcp(dhcp.yes));
      o := Done;
      if dhcp.yes {
        o := Vbm(IpConfigDhcp);         // error ignored
        if o != Hung { o := Done; }
      }
    }

    /** `waitForNewHostOnlyNetwork`: ten listings at most. */
    method WaitForNewAdapter() returns (o: Outcome)
      requires Valid()
      modifies this`answers, this`trace, this`sum
      ensures Proceeds(o) && (o == Done || o == Failed || o == Hung)
      ensures sum == old(sum).(troubles := sum.troubles)
      ensures o == Done ==> trace == old(trace) + [Appeared]
      ensures o == Done ==> |answers| < |old(answers)| && old(answers)[|old(answers)| - |answers| - 1].yes
      ensures o == Failed ==> trace == old(trace) + [Refused] || trace == old(trace) + [GaveUp]
      ensures trace == old(trace) + [GaveUp] ==> |answers| + 10 <= |old(answers)|
    {
      for i := 0 to 10
        invariant i <= |old(answers)| && answers == old(answers)[i..] && trace == old(trace) && sum == old(sum)
      {
        var adapters :- Ask();
        if adapters.yes {
          Record(Appeared);
          return Done;
        }
      }
      Record(GaveUp);
      return Failed;
    }

    /** `removeOrphanDHCPServers`: a failure to remove one is only logged. */
    method RemoveOrphans() returns (o: Outcome)
      requires Valid()
      modifies this`answers, this`trace, this`sum
      ensures Proceeds(o) && sum.seen == old(sum).seen && (old(sum).safe ==> sum.safe)
      ensures Only(old(sum), NONE.(removeServer := true))
      ensures OrphansOnly(trace, |old(trace)|)
      ensures o == Done ==> |trace| > |old(trace)| && trace[|trace| - 1] == Orphan(false)
      ensures o == Failed ==> |trace| > |old(trace)| && trace[|trace| - 1] == Refused
    {
      var servers :- AskInARow(2);      // servers, adapters
      o := RemoveAll();
    }

    /** Its loop. */
    method RemoveAll() returns (o: Outcome)
      requires Valid()
      modifies this`answers, this`trace, this`sum
      ensures Proceeds(o) && sum.seen == old(sum).seen && (old(sum).safe ==> sum.safe)
      ensures Only(old(sum), NONE.(removeServer := true))
      ensures OrphansOnly(trace, |old(trace)|)
      ensures o == Done ==> |trace| > |old(trace)| && trace[|trace| - 1] == Orphan(false)
      ensures o == Failed ==> |trace| > |old(trace)| && trace[|trace| - 1] == Refused
    {
      o := Done;
      var more := true;
      while more
        invariant sum.seen == old(sum).seen && o == Done
        invariant Proceeds(Done) && (old(sum).safe ==> sum.safe)
        invariant Only(old(sum), NONE.(removeServer := true))
        invariant OrphansOnly(trace, |old(trace)|)
        invariant |trace| > |old(trace)| ==> trace[|trace| - 1] != Orphan(true)
        invariant !more ==> |trace| > |old(trace)| && trace[|trace| - 1] == Orphan(false)
        decreases more, |answers|
      {
        ghost var t := trace;
        o, more := RemoveNext();
        OrphansStep(t, trace, |old(trace)|);
        if o != Done { return; }
      }
    }

    /** One turn of it. */
    method RemoveNext() returns (o: Outcome, more: bool)
      requires Valid()
      modifies this`answers, this`trace, this`sum
      ensures Proceeds(o) && sum.seen == old(sum).seen && (old(sum).safe ==> sum.safe)
      ensures Only(old(sum), NONE.(removeServer := true))
      ensures (o == Done || o == Failed || o == Hung) && OrphanTurn(old(trace), trace)
      ensures o == Failed ==> trace == old(trace) + [Refused]
      ensures o == Done ==> old(answers) != [] && more == old(answers)[0].yes
      ensures o == Done && !more ==> trace == old(trace) + [Orphan(false)]
      ensures o == Done && more ==>
                && |answers| < |old(answers)|
                && exists ok :: trace == old(trace) + [Orphan(true)] + [Issued(RemoveServer, ok)]
    {
      more := false;
      var next :- Ask();
      Record(Orphan(next.yes));
      more := next.yes;
      o := Done;
      if more {
        o := Vbm(RemoveServer);
        if o != Hung { o := Done; }
      }
    }

    /** `setPortForwarding`: an old rule is deleted, whether there is one or not, and a new one added. */
    method ForwardPort() returns (o: Outcome)
      requires Valid()
      modifies this`answers, this`trace, this`sum
      ensures Proceeds(o) && sum.seen == old(sum).seen && (old(sum).safe ==> sum.safe)
      ensures Only(old(sum), NONE.(portRule := true))
      ensures o == Done ==>
                && sum.tries.portRule == old(sum).tries.portRule + 2
                && sum.successes.portRule > old(sum).successes.portRule
    {
      var port :- Ask();
      o := Vbm(PortRule);               // error ignored
      if o == Hung { return; }
      o := Vbm(PortRule);
    }

    // ----- the operations

    /** A VM that was found paused is resumed, any other is not; then one `acpipowerbutton`, and waiting until the VM
        does not run. */
    method Stop() returns (o: Outcome)
      requires Valid()
      modifies this`answers, this`trace, this`sum, this`ipAddress
      ensures Proceeds(o) && (old(sum).safe ==> sum.safe)
      ensures Only(old(sum), NONE.(resume := true, acpi := true))
      ensures o == Done ==>
                && sum.seen.Some? && sum.seen.value != Running && ipAddress == ""
                && sum.successes.acpi == old(sum).successes.acpi + 1
      ensures o == Done ==>
                && |trace| > |old(trace)| && trace[|old(trace)|].Saw?
                && sum.successes.resume ==
                   old(sum).successes.resume + if trace[|old(trace)|].state == Paused then 1 else 0
      ensures sum.successes.acpi <= old(sum).successes.acpi + 1
    {
      o := PressPowerButton();
      if o != Done { return; }
      :- AwaitNotRunning();
      ipAddress := "";
      o := Done;
    }

    /** `Stop` up to its loop. */
    method PressPowerButton() returns (o: Outcome)
      requires Valid()
      modifies this`answers, this`trace, this`sum
      ensures Proceeds(o) && (old(sum).safe ==> sum.safe)
      ensures Only(old(sum), NONE.(resume := true, acpi := true))
      ensures sum.successes.acpi == old(sum).successes.acpi + if o == Done then 1 else 0
      ensures o == Done ==>
                && |trace| > |old(trace)| && trace[|old(trace)|].Saw?
                && sum.successes.resume ==
                   old(sum).successes.resume + if trace[|old(trace)|].state == Paused then 1 else 0
    {
      var currentState :- GetState();
      if currentState == Paused { :- Vbm(Resume); }
      o := Vbm(AcpiPowerButton);
    }

    /** The endless loop of `Stop`. */
    method AwaitNotRunning() returns (o: Outcome)
      requires Valid()
      modifies this`answers, this`trace, this`sum
      ensures Proceeds(o) && (old(sum).safe ==> sum.safe)
      ensures Only(old(sum), NONE)
      ensures o == Done ==> sum.seen.Some? && sum.seen.value != Running
    {
      var s :- GetState();
      while s == Running
        invariant Proceeds(Done) && (old(sum).safe ==> sum.safe) && sum.seen == Some(s) && Only(old(sum), NONE)
        decreases |answers|
      {
        s :- GetState();
      }
      o := Done;
    }

    /** The switch of `Start`, by the state in which the VM was found. */
    method Boot(s: VmState) returns (o: Outcome)
      requires Valid()
      modifies this`answers, this`trace, this`sum
      ensures Proceeds(o)
      ensures old(sum).safe && old(sum).seen == Some(s) ==> sum.safe
      ensures Only(old(sum), match s
                             case Stopped => BOOTING
                             case Saved => BOOTING
                             case Paused => NONE.(resume := true)
                             case _ => NONE)
      ensures o == Done && (s == Stopped || s == Saved) ==>
                && sum.successes.startVm == old(sum).successes.startVm + 1
                && sum.tries.portRule == old(sum).tries.portRule + 2
      ensures o == Done && s == Paused ==> sum.successes.resume == old(sum).successes.resume + 1
    {
      o := Done;
      if s == Stopped || s == Saved {
        :- ForwardPort();
        o := Vbm(StartVm);
      } else if s == Paused {
        o := Vbm(Resume);
      }
    }

    /** The check of hardware virtualization, unless it is switched off. */
    method CheckVtx() returns (o: Outcome)
      requires Valid()
      modifies this`answers, this`trace, this`sum
      ensures Proceeds(o) && sum == old(sum).(troubles := sum.troubles)
      ensures o == Done && !noVtxCheck ==> trace == old(trace) + [Vtx(false)]
      ensures o == Done && !noVtxCheck ==> old(answers) != [] && old(answers)[0].ok && !old(answers)[0].yes
      ensures o == Failed ==> old(answers) != [] && (!old(answers)[0].ok || old(answers)[0].yes)
      ensures noVtxCheck ==> o == Done && trace == old(trace)
    {
      if !noVtxCheck {
        var log :- Ask();
        Record(Vtx(log.yes));
        if log.yes { return Failed; }
      }
      o := Done;
    }

    /** The part of `Start` that repairs a corrupted adapter: stop, reconfigure, start again. */
    method Repair() returns (o: Outcome)
      requires Valid()
      modifies this`answers, this`trace, this`sum, this`ipAddress
      ensures Proceeds(o) && (old(sum).safe ==> sum.safe)
      ensures Only(old(sum), REPAIRING)
      ensures o == Done ==>
                && sum.seen == Some(Running)
                && sum.successes.acpi == old(sum).successes.acpi + 1
                && sum.successes.ipConfig == old(sum).successes.ipConfig + 1
                && sum.successes.startVm == old(sum).successes.startVm + 1
      ensures o == Done ==> |trace| > |old(trace)| && trace[|trace| - 1] == Address(ipAddress)
    {
      o := Stop();
      if o != Done { return; }
      :- Vbm(IpConfig);
      :- Vbm(StartVm);
      o := Wait();
    }

    /** `Start` up to the address: network if the VM was stopped, launch, wait. */
    method BringUp(s: VmState) returns (o: Outcome)
      requires Valid() && sum.seen == Some(s)
      modifies this`answers, this`trace, this`sum, this`ipAddress
      ensures Proceeds(o) && (old(sum).safe ==> sum.safe)
      ensures Only(old(sum), match s
                             case Stopped => NETWORKING.(startVm := true, portRule := true)
                             case Saved => BOOTING
                             case Paused => NONE.(resume := true)
                             case _ => NONE)
      ensures o == Done ==> sum.seen == Some(Running) && BroughtUp(old(sum), s)
      ensures o == Done ==> Waited(trace, |old(trace)|, |trace|) && trace[|trace| - 1] == Address(ipAddress)
      ensures o == Done && !noVtxCheck ==> Has(trace, |old(trace)|, Vtx(false))
      // the NIC of a stopped VM is attached before it is started
      ensures s == Stopped ==> OnlyAfter(trace, |old(trace)|, StartVm, AttachNic)
    {
      o := Prepare(s);
      if o != Done { return; }
      ghost var t := trace;
      o := Launch(s);
      if s == Stopped { AttachedFirst(t, trace, |old(trace)|); }
      WaitedEarlier(trace, |old(trace)|, |t|);
      HasEarlier(trace, |old(trace)|, |t|, Vtx(false));
    }

    /** The network of a stopped VM, before anything is launched. */
    method Prepare(s: VmState) returns (o: Outcome)
      requires Valid()
      modifies this`answers, this`trace, this`sum
      ensures Proceeds(o) && sum.seen == old(sum).seen
      ensures old(sum).safe && Allowed(IpConfig, old(sum).seen, false) ==> sum.safe
      ensures if s == Stopped then Only(old(sum), NETWORKING) else o == Done && trace == old(trace) && sum == old(sum)
      ensures NoLaunch(trace, |old(trace)|, |trace|)
      ensures o == Done && s == Stopped ==>
                && sum.successes.attachNic == old(sum).successes.attachNic + 1
                && Has(trace, |old(trace)|, Issued(AttachNic, true))
    {
      o := Done;
      if s == Stopped {
        o := SetupNetwork();
        NoneIssued(old(trace), trace);
        SomeIssued(old(trace), trace);
      }
    }

    /** Boot, check, wait. */
    method Launch(s: VmState) returns (o: Outcome)
      requires Valid()
      modifies this`answers, this`trace, this`sum, this`ipAddress
      ensures Proceeds(o)
      ensures old(sum).safe && old(sum).seen == Some(s) ==> sum.safe
      ensures Only(old(sum), match s
                             case Stopped => BOOTING
                             case Saved => BOOTING
                             case Paused => NONE.(resume := true)
                             case _ => NONE)
      ensures o == Done && (s == Stopped || s == Saved) ==>
                && sum.successes.startVm == old(sum).successes.startVm + 1
                && sum.tries.portRule == old(sum).tries.portRule + 2
      ensures o == Done && s == Paused ==> sum.successes.resume == old(sum).successes.resume + 1
      ensures o == Done ==> sum.seen == Some(Running)
      ensures o == Done ==> Waited(trace, |old(trace)|, |trace|) && trace[|trace| - 1] == Address(ipAddress)
      ensures o == Done && !noVtxCheck ==> Has(trace, |old(trace)|, Vtx(false))
    {
      o := Boot(s);
      if o != Done { return; }
      ghost var t := trace;
      o := CheckAndWait();
      WaitedEarlier(trace, |old(trace)|, |t|);
      HasEarlier(trace, |old(trace)|, |t|, Vtx(false));
    }

    method CheckAndWait() returns (o: Outcome)
      requires Valid()
      modifies this`answers, this`trace, this`sum, this`ipAddress
      ensures Proceeds(o) && (old(sum).safe ==> sum.safe) && Only(old(sum), NONE)
      ensures o == Done ==> sum.seen == Some(Running)
      ensures o == Done ==> Waited(trace, |old(trace)|, |trace|) && trace[|trace| - 1] == Address(ipAddress)
      ensures o == Done && !noVtxCheck ==> Has(trace, |old(trace)|, Vtx(false))
    {
      o := CheckVtx();
      if o != Done { return; }
      ghost var t := trace;
      assert !noVtxCheck ==> t[|old(trace)|] == Vtx(false);
      o := Wait();
      WaitedEarlier(trace, |old(trace)|, |t|);
      HasLater(t, trace, |old(trace)|, Vtx(false));
    }

    /** What `BringUp` has issued with success, by the state in which the VM was found. */
    ghost predicate BroughtUp(before: Summary, s: VmState)
      reads this
    {
      && (s == Stopped ==> sum.successes.attachNic == before.successes.attachNic + 1)
      && (s == Stopped || s == Saved ==>
            && sum.successes.startVm == before.successes.startVm + 1
            && sum.tries.portRule == before.tries.portRule + 2)
      && (s == Paused ==> sum.successes.resume == before.successes.resume + 1)
    }

    /** The end of `Start`: is the adapter still what it was set up to be? If not, it is repaired. */
    method CheckAdapter() returns (o: Outcome)
      requires Valid() && sum.seen == Some(Running) && |trace| > 0 && trace[|trace| - 1] == Address(ipAddress)
      modifies this`answers, this`trace, this`sum, this`ipAddress
      ensures Proceeds(o) && (old(sum).safe ==> sum.safe)
      ensures Only(old(sum), REPAIRING)
      ensures o == Done ==>
                && |trace| > |old(trace)| && |old(answers)| >= 4 && trace[|old(trace)|] == Intact(old(answers)[3].yes)
                && sum.seen == Some(Running)
                && (if trace[|old(trace)|].yes then sum == old(sum) && ipAddress == old(ipAddress)
                    else
                      && sum.successes.acpi == old(sum).successes.acpi + 1
                      && sum.successes.ipConfig == old(sum).successes.ipConfig + 1
                      && sum.successes.startVm == old(sum).successes.startVm + 1
                      && trace[|trace| - 1] == Address(ipAddress))
      ensures o == Done ==> LastAddress(trace, ipAddress)
    {
      var matching :- AskInARow(4);     // adapters, CIDR, collisions, matching adapter
      Record(Intact(matching.yes));
      if matching.yes {
        assert trace[|trace| - 2] == Address(ipAddress);
        return Done;
      }
      o := Repair();
    }

    method Start() returns (o: Outcome, ghost first: Option<VmState>)
      requires Valid()
      modifies this`answers, this`trace, this`sum, this`ipAddress
      ensures Proceeds(o) && (old(sum).safe ==> sum.safe)
      ensures Only(old(sum), STARTING)
      // `first` is the first thing seen; without it nothing was seen at all
      ensures first.Some? ==> old(trace) + [Saw(first.value)] <= trace
      ensures first.None? ==> trace == if o == Hung then old(trace) else old(trace) + [SawError(o == NotExist)]
      // and it decides what may be issued
      ensures first !in {Some(Stopped), Some(Saved), Some(Paused)} ==> Only(old(sum), NONE)
      ensures first == Some(Paused) ==> Only(old(sum), NONE.(resume := true))
      ensures first == Some(Saved) ==> Only(old(sum), BOOTING)
      // a stopped VM gets its network before it is started
      ensures first == Some(Stopped) ==> OnlyAfter(trace, |old(trace)|, StartVm, AttachNic)
      ensures o == Done ==> first.Some? && sum.seen == Some(Running) && StartedFrom(old(sum), first.value)
      // and is shut down and started again exactly if its adapter did not survive
      ensures o == Done && first == Some(Stopped) ==>
                Has(trace, |old(trace)|, Intact(sum.successes.acpi == old(sum).successes.acpi))
      ensures o == Done ==> exists m: nat :: Waited(trace, |old(trace)|, m)
      ensures o == Done ==> LastAddress(trace, ipAddress)
      ensures o == Done && !noVtxCheck ==> Has(trace, |old(trace)|, Vtx(false))
    {
      first := None;
      var s :- GetState();
      first := Some(s);
      ghost var t := trace;
      o := StartFrom(s);
      OnlyAfterEarlier(trace, |old(trace)|, |t|);
      if o == Done {
        ghost var m: nat :| Waited(trace, |t|, m);
        assert Waited(trace, |old(trace)|, m);
        HasEarlier(trace, |old(trace)|, |t|, Vtx(false));
        HasEarlier(trace, |old(trace)|, |t|, Intact(sum.successes.acpi == old(sum).successes.acpi));
      }
    }

    /** `Start` of a VM that was found in state `s`. */
    method StartFrom(s: VmState) returns (o: Outcome)
      requires Valid() && sum.seen == Some(s)
      modifies this`answers, this`trace, this`sum, this`ipAddress
      ensures Proceeds(o) && (old(sum).safe ==> sum.safe)
      ensures Only(old(sum), match s
                             case Stopped => STARTING
                             case Saved => BOOTING
                             case Paused => NONE.(resume := true)
                             case _ => NONE)
      ensures s == Stopped ==> OnlyAfter(trace, |old(trace)|, StartVm, AttachNic)
      ensures o == Done ==> sum.seen == Some(Running) && StartedFrom(old(sum), s)
      ensures o == Done && s == Stopped ==>
                Has(trace, |old(trace)|, Intact(sum.successes.acpi == old(sum).successes.acpi))
      ensures o == Done ==> exists m: nat :: Waited(trace, |old(trace)|, m)
      ensures o == Done ==> LastAddress(trace, ipAddress)
      ensures o == Done && !noVtxCheck ==> Has(trace, |old(trace)|, Vtx(false))
    {
      o := BringUp(s);
      assert o == Done ==> LastAddress(trace, ipAddress);
      if o != Done || s != Stopped { return; }    // hostOnlyAdapter == nil
      ghost var t := trace;
      SomeIssued(old(trace), t);
      o := CheckAdapter();
      assert o == Done ==> trace[|t|] == Intact(sum.successes.acpi == old(sum).successes.acpi);
      OnlyAfterLater(t, trace, |old(trace)|);
      WaitedLater(t, trace, |old(trace)|, |t|);
      HasLater(t, trace, |old(trace)|, Vtx(false));
    }

    /** What a successful `Start` has issued with success: for a stopped or saved VM one launch, plus one for each time
        the VM was shut down again, at most once, to repair its adapter. */
    ghost predicate StartedFrom(before: Summary, s: VmState)
      reads this
    {
      && before.successes.acpi <= sum.successes.acpi
      && (s == Paused ==> sum.successes.resume == before.successes.resume + 1)
      && (s == Stopped ==> sum.successes.attachNic == before.successes.attachNic + 1)
      && (s == Stopped || s == Saved ==>
            && sum.tries.portRule == before.tries.portRule + 2
            && before.successes.acpi <= sum.successes.acpi <= before.successes.acpi + 1
            && sum.successes.startVm - before.successes.startVm == 1 + sum.successes.acpi - before.successes.acpi)
    }

    method Restart() returns (o: Outcome)
      requires Valid()
      modifies this`answers, this`trace, this`sum, this`ipAddress
      ensures Proceeds(o) && (old(sum).safe ==> sum.safe)
      ensures Only(old(sum), STARTING)
      ensures o == Done ==>
                && sum.seen == Some(Running)
                && sum.successes.acpi > old(sum).successes.acpi
      // the address is waited for twice, and what is stored is what was found last
      ensures o == Done ==>
                && |trace| > 0 && trace[|trace| - 1] == Address(ipAddress)
                && exists k: nat, m: nat, n: nat ::
                     |old(trace)| <= k && Waited(trace, k, m) && m <= n && Waited(trace, n, |trace|)
    {
      ghost var k, m;
      o, k, m := StopAndStart();
      if o != Done { return; }
      ghost var t := trace;
      o := WaitAgain();
      WaitedLater(t, trace, k, m);
      assert o == Done ==> Waited(trace, k, m) && m <= |t| && Waited(trace, |t|, |trace|);
    }

    /** The end of `Restart`: what was known of the address is forgotten first. */
    method WaitAgain() returns (o: Outcome)
      requires Valid()
      modifies this`answers, this`trace, this`sum, this`ipAddress
      ensures Proceeds(o) && (old(sum).safe ==> sum.safe) && Only(old(sum), NONE)
      ensures o == Done ==> sum.seen == Some(Running) && Waited(trace, |old(trace)|, |trace|)
      ensures if o == Done then trace[|trace| - 1] == Address(ipAddress) else ipAddress == ""
    {
      ipAddress := "";
      o := Wait();
    }

    /** `Restart` up to its own waiting; `Start` has waited between `k` and `m`. */
    method StopAndStart() returns (o: Outcome, ghost k: nat, ghost m: nat)
      requires Valid()
      modifies this`answers, this`trace, this`sum, this`ipAddress
      ensures Proceeds(o) && (old(sum).safe ==> sum.safe)
      ensures Only(old(sum), STARTING)
      ensures o == Done ==>
                && sum.seen == Some(Running) && sum.successes.acpi > old(sum).successes.acpi
                && |old(trace)| <= k && Waited(trace, k, m)
    {
      k, m := 0, 0;
      o := Stop();
      if o != Done { return; }
      k := |trace|;
      ghost var first;
      o, first := Start();
      if o == Done { m :| Waited(trace, k, m); }
    }

    method Kill() returns (o: Outcome)
      requires Valid()
      modifies this`answers, this`trace, this`sum
      ensures Proceeds(o) && (old(sum).safe ==> sum.safe) && (o == Done || o == Failed || o == Hung)
      ensures Only(old(sum), NONE.(powerOff := true))
      ensures o == Done ==> sum.killed && sum.successes.powerOff == old(sum).successes.powerOff + 1
    {
      o := Vbm(PowerOff);
    }

    /** A missing machine is nothing to remove; one that may still run is killed first, one that was found stopped or
        saved is not. */
    method Remove() returns (o: Outcome)
      requires Valid()
      modifies this`answers, this`trace, this`sum
      ensures Proceeds(o) && (old(sum).safe ==> sum.safe)
      ensures Only(old(sum), NONE.(powerOff := true, unregister := true))
      ensures old(trace) + [SawError(true)] <= trace ==> o == Done && trace == old(trace) + [SawError(true)]
      ensures o == Done && trace != old(trace) + [SawError(true)] ==>
                && |trace| > |old(trace)| && trace[|old(trace)|].Saw?
                && sum.successes.unregister == old(sum).successes.unregister + 1
                && sum.successes.powerOff ==
                   old(sum).successes.powerOff + if trace[|old(trace)|].state in {Stopped, Saved} then 0 else 1
    {
      var s;
      o, s := GetState();
      if o == NotExist { return Done; }
      if o != Done { return; }
      if s != Stopped && s != Saved { :- Kill(); }
      o := Vbm(Unregister);
    }
  }

  datatype Operation = DoStart | DoStop | DoRestart | DoKill | DoRemove

  /** Any operations in any order, with any answers: every command that was issued was safe to issue. */
  method Session(d: Driver, ops: seq<Operation>)
    requires d.Valid()
    modifies d
    ensures Summarize(old(d.trace)).safe ==> Summarize(d.trace).safe
    ensures old(d.trace) <= d.trace
  {
    var o: Outcome;
    ghost var first: Option<VmState>;
    for i := 0 to |ops|
      invariant d.Valid() && old(d.trace) <= d.trace && (old(d.sum).safe ==> d.sum.safe)
    {
      match ops[i] {
        case DoStart => o, first := d.Start();
        case DoStop => o := d.Stop();
        case DoRestart => o := d.Restart();
        case DoKill => o := d.Kill();
        case DoRemove => o := d.Remove();
      }
    }
  }
}
