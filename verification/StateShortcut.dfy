/**
  * `attemptGetHostState`: the state of a host in a listing, taken from its URL where there is one, against the
  * state that the VirtualBox driver itself answers.
  */
module StateShortcut {
  import opened Basics
  import Ifconfig
  import IfconfigText

  /** The texts of `ErrHostIsNotRunning`, of `ErrMachineNotExist`, and of the error of a search without result. */
  const NOT_RUNNING := "Host is not running"
  const NO_MACHINE := "machine does not exist"
  const NO_ADDRESS := "Could not find matching IP for MAC address "

  datatype Result<+T> = Ok(value: T) | Err(text: string)

  /** What `VBoxManage showvminfo` answers: the `VMState` line and the host-only MAC address, either may be missing. */
  datatype Info = Failed(notFound: bool, text: string) | Info(vmState: Option<string>, mac: Result<string>)

  /** A query of the driver; one whose code panics takes the plugin's process with it. */
  datatype Query<+T> = Value(value: T) | Failure(text: string) | Lost

  /**
    * Everything the world answers during one listing of a host: three reports of `showvminfo` (for the state
    * behind the IP, for the MAC address, for the state itself), the lines of `ifconfig`, and the text of the
    * error with which calls to a dead plugin fail.
    */
  datatype World = World(first: Info, second: Info, ifconfig: Result<seq<string>>, last: Info, lostText: string)

  datatype Answer = Answer(state: VmState, error: Option<string>)

  datatype Item = Item(state: VmState, url: string, error: string)

  function TextOf(i: Info): string
    requires i.Failed?
  {
    if i.notFound then NO_MACHINE else i.text
  }

  function GetState(i: Info): (r: Answer)
    ensures r.error.Some? <==> i.Failed?
    ensures r.state == ErrorState <==> i.Failed?
    ensures r.state == Running <==> i.Info? && i.vmState == Some("running")
    ensures r.state == Paused <==> i.Info? && i.vmState == Some("paused")
    ensures r.state == Saved <==> i.Info? && i.vmState == Some("saved")
    ensures r.state == Stopped <==> i.Info? && i.vmState in {Some("poweroff"), Some("aborted")}
  {
    match i
    case Failed(_, _) => Answer(ErrorState, Some(TextOf(i)))
    case Info(v, _) =>
      Answer(if v == Some("running") then Running
             else if v == Some("paused") then Paused
             else if v == Some("saved") then Saved
             else if v == Some("poweroff") || v == Some("aborted") then Stopped
             else NoState, None)
  }

  function GetMac(i: Info): Result<string> {
    if i.Failed? then Err(TextOf(i)) else i.mac
  }

  function GetIP(w: World): Query<string> {
    var s := GetState(w.first);
    if s.error.Some? then Failure(s.error.value)
    else if s.state != Running then Failure(NOT_RUNNING)
    else
      var mac := GetMac(w.second);
      if mac.Err? then Failure(mac.text)
      else if w.ifconfig.Err? then Failure(w.ifconfig.text)
      else
        match Search(w.ifconfig.value, mac.value)
        case Found(ip) => Value(ip)
        case NotFound => Failure(NO_ADDRESS + mac.value)
        case Crashed => Lost
  }

  /** What `Ifconfig.ParseIPForMAC` returns. */
  function Search(lines: seq<string>, mac: string): Ifconfig.Outcome {
    Ifconfig.Scan(Ifconfig.Kinds(lines), mac, false, None)
  }

  function GetURL(w: World): Query<string> {
    match GetIP(w)
    case Value(ip) => Value(if ip == "" then "" else "tcp://" + ip)
    case Failure(t) => Failure(t)
    case Lost => Lost
  }

  function Text(e: Option<string>): string {
    if e == None || e.value == NOT_RUNNING then "" else e.value
  }

  /** The listing asks for the URL first, and for the state only where there is none. */
  function AttemptGetHostState(w: World): (r: Item)
    ensures r.url != "" ==> r.state == Running && r.error == "" && GetState(w.first).state == Running
  {
    match GetURL(w)
    case Value(url) =>
      if url != "" then Item(Running, url, "")
      else
        var s := GetState(w.last);
        Item(s.state, "", Text(s.error))
    case Failure(t) => Item(GetState(w.last).state, "", Text(Some(t)))
    case Lost => Item(ErrorState, "", Text(Some(w.lostText)))
  }

  /** The URL is that of the address found, and there is one exactly if a non-empty address was. */
  lemma UrlIff(w: World)
    ensures AttemptGetHostState(w).url ==
            if Searched(w) && Search(w.ifconfig.value, GetMac(w.second).value).Found?
               && Search(w.ifconfig.value, GetMac(w.second).value).ip != ""
            then "tcp://" + Search(w.ifconfig.value, GetMac(w.second).value).ip
            else ""
  {
  }

  /** The VM runs and `ifconfig` was searched for its MAC address. */
  predicate Searched(w: World) {
    GetState(w.first).state == Running && GetMac(w.second).Ok? && w.ifconfig.Ok?
  }

  function Trim(line: string): string {
    Ifconfig.TrimRight(Ifconfig.TrimLeft(line))
  }

  /** Some line is cut off after a MAC address or an IP address, and the lines before it hold no answer yet. */
  ghost predicate CutOff(lines: seq<string>, mac: string) {
    exists i ::
      && 0 <= i < |lines| && IfconfigText.CutOffLine(Trim(lines[i]))
      && Ifconfig.NoAnswer(Ifconfig.Kinds(lines[..i]), mac)
  }

  lemma CutOffIff(lines: seq<string>, mac: string)
    ensures CutOff(lines, mac) <==> Search(lines, mac).Crashed?
  {
    var ks := Ifconfig.Kinds(lines);
    Ifconfig.CrashesIff(ks, mac, false, None);
    forall i | 0 <= i < |lines|
      ensures Ifconfig.CrashesAt(ks, mac, false, None, i) <==>
              IfconfigText.CutOffLine(Trim(lines[i])) && Ifconfig.NoAnswer(Ifconfig.Kinds(lines[..i]), mac)
    {
      assert ks[..i] == Ifconfig.Kinds(lines[..i]) && ks[i] == Ifconfig.Classify(lines[i]);
      IfconfigText.PanicsIff(lines[i]);
      Ifconfig.NotFoundIff(ks[..i], mac);
    }
  }

  /**
    * For a VM whose state does not change in between, the listed state is the one `GetState` answers, unless
    * the search for its address comes to a cut off line.
    */
  lemma ListedStateIff(w: World)
    requires GetState(w.first) == GetState(w.last)
    ensures AttemptGetHostState(w).state == GetState(w.last).state <==>
            !(Searched(w) && CutOff(w.ifconfig.value, GetMac(w.second).value))
  {
    if Searched(w) { CutOffIff(w.ifconfig.value, GetMac(w.second).value); }
  }

  /** For a VM that does change, the listed state is out of date exactly when the URL was there and the VM is not
      running any more. */
  lemma OutOfDateIff(w: World)
    requires !(Searched(w) && CutOff(w.ifconfig.value, GetMac(w.second).value))
    ensures AttemptGetHostState(w).state != GetState(w.last).state <==>
            AttemptGetHostState(w).url != "" && GetState(w.last).state != Running
  {
    if Searched(w) { CutOffIff(w.ifconfig.value, GetMac(w.second).value); }
  }

  /** No error has an empty text, or the text of the error that the listing leaves out. */
  predicate Honest(w: World) {
    && Telling(w.lostText) && (w.ifconfig.Err? ==> Telling(w.ifconfig.text))
    && (w.first.Failed? ==> Telling(w.first.text)) && (w.second.Failed? ==> Telling(w.second.text))
    && (w.second.Info? && w.second.mac.Err? ==> Telling(w.second.mac.text))
  }

  predicate Telling(text: string) {
    text != "" && text != NOT_RUNNING
  }

  /** The lines hold the address: they are neither without an answer nor cut off before it. */
  ghost predicate HoldAddress(lines: seq<string>, mac: string) {
    !Ifconfig.NoAnswer(Ifconfig.Kinds(lines), mac) && !CutOff(lines, mac)
  }

  lemma HoldAddressIff(lines: seq<string>, mac: string)
    ensures HoldAddress(lines, mac) <==> Search(lines, mac).Found?
  {
    Ifconfig.NotFoundIff(Ifconfig.Kinds(lines), mac);
    CutOffIff(lines, mac);
  }

  /**
    * A host is listed without an error exactly when the VM answers and is not running, or runs and has an
    * address: no error for a host that is merely stopped.
    */
  lemma NoErrorIff(w: World)
    requires GetState(w.first) == GetState(w.last) && Honest(w)
    ensures AttemptGetHostState(w).error == "" <==>
            w.first.Info? && (GetState(w.first).state == Running ==>
              Searched(w) && HoldAddress(w.ifconfig.value, GetMac(w.second).value))
  {
    TextsTell("");
    if Searched(w) {
      var mac := GetMac(w.second).value;
      TextsTell(mac);
      HoldAddressIff(w.ifconfig.value, mac);
    }
  }

  lemma TextsTell(mac: string)
    ensures Telling(NO_MACHINE) && Telling(NO_ADDRESS + mac)
  {
    assert NO_MACHINE[0] == 'm' && NO_ADDRESS[0] == 'C' && NOT_RUNNING[0] == 'H';
    assert (NO_ADDRESS + mac)[0] == 'C';
  }

  /** Which error is listed: that of the first question that failed, in the words of the driver. */
  lemma ListedError(w: World)
    requires GetState(w.first) == GetState(w.last) && Honest(w)
    ensures var error := AttemptGetHostState(w).error;
            && (w.first.Failed? ==> error == if w.first.notFound then "machine does not exist" else w.first.text)
            && (GetState(w.first).state == Running ==>
                  match GetMac(w.second)
                  case Err(text) =>
                    error == text
                    == (if w.second.Info? then w.second.mac.text
                        else if w.second.notFound then "machine does not exist" else w.second.text)
                  case Ok(mac) =>
                    match w.ifconfig
                    case Err(text) => error == text
                    case Ok(lines) =>
                      match Search(lines, mac)
                      case Found(_) => error == ""
                      case NotFound => error == "Could not find matching IP for MAC address " + mac
                      case Crashed => error == w.lostText)
  {
    TextsTell("");
    if GetMac(w.second).Ok? { TextsTell(GetMac(w.second).value); }
  }

  /** A running VM whose guest begins with an address at the end of its line is listed as being in error. */
  lemma RunningButListedInError(w: World, ip: string)
    requires GetState(w.first) == GetState(w.last) && Searched(w)
    requires ip != [] && forall c :: c in ip ==> '0' <= c <= '9' || c == '.'
    requires w.ifconfig.value != [] && w.ifconfig.value[0] == "inet " + ip
    ensures GetState(w.last).state == Running && AttemptGetHostState(w).state == ErrorState
  {
    PlainAddressPanics(ip);
    var lines := w.ifconfig.value;
    assert Ifconfig.Kinds(lines)[0].Panics?;
  }

  lemma PlainAddressPanics(ip: string)
    requires ip != [] && forall c :: c in ip ==> '0' <= c <= '9' || c == '.'
    ensures Ifconfig.Classify("inet " + ip).Panics?
  {
    var line := "inet " + ip;
    IfconfigText.Lacks(line, "Link", 0);
    IfconfigText.Lacks(line, "ether", 2);
    IfconfigText.Lacks(line, "addr:", 4);
    IfconfigText.Lacks(ip, "inet ", 0);
    assert line[|ip| + 4] == ip[|ip| - 1] && ip[|ip| - 1] in ip;
    IfconfigText.CutOffInetIff([], ip, []);
    assert [] + line + [] == line;
  }
}
