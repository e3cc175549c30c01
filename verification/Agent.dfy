/**
 The agent's side of the approval protocol: scanning for a server, binding to it, and what
 failures, remote configuration and restarts do to the binding.

 Each handshake's result is an input: it is whatever the contacted host answers.
 */
module Agent {
  import opened Json
  import opened ConfigFile
  import FlatJson
  import Lines
  import Numbers

  // ---- handshakes ----

  /** The answer to a `handshake_req`: an acknowledgement, or no usable answer. */
  datatype Ack = NoAck | Ack(approved: bool, serverId: string, serverIp: string)

  datatype Outcome = Unreachable | NotApproved | Accepted(id: string, ip: string)

  /** `ctc_handshake`: an approval counts only with a server id. */
  function Handshake(a: Ack, host: string): (o: Outcome)
    ensures o.Accepted? ==> o.id != ""
  {
    if a.NoAck? then Unreachable
    else if a.approved && a.serverId != "" then Accepted(a.serverId, if a.serverIp != "" then a.serverIp else host)
    else NotApproved
  }

  /** A host to try and what it answers. */
  datatype Candidate = Candidate(host: string, port: int, ack: Ack)

  // ---- scanning ----

  /** 0 bound, 1 pending, -1 nothing found. */
  datatype ScanResult = ScanResult(rc: int, id: string, ip: string, host: string, port: int)

  function NoResult(cfg: Config, rc: int): ScanResult {
    ScanResult(rc, "", "", cfg.host, cfg.port)
  }

  predicate Acceptable(cfg: Config, id: string) {
    cfg.boundId == "" || id == cfg.boundId
  }

  /** Nobody answered the broadcast: the configured hosts, in order, up to the first that decides. */
  function ScanHosts(cfg: Config, hosts: seq<Candidate>): ScanResult {
    if hosts == [] then NoResult(cfg, -1)
    else
      match Handshake(hosts[0].ack, cfg.host)
      case Accepted(id, ip) =>
        if Acceptable(cfg, id) then ScanResult(0, id, ip, cfg.host, cfg.port) else ScanHosts(cfg, hosts[1..])
      case NotApproved => NoResult(cfg, 1)
      case Unreachable => ScanHosts(cfg, hosts[1..])
  }

  /** Hosts that answered the broadcast: the first acceptable one, pending ones notwithstanding. */
  function ScanLan(cfg: Config, cands: seq<Candidate>, sawPending: bool): ScanResult {
    if cands == [] then NoResult(cfg, if sawPending then 1 else -1)
    else
      match Handshake(cands[0].ack, cfg.host)
      case Accepted(id, ip) =>
        if Acceptable(cfg, id) then ScanResult(0, id, if ip != "" then ip else cands[0].host, cands[0].host, cands[0].port)
        else ScanLan(cfg, cands[1..], sawPending)
      case NotApproved => ScanLan(cfg, cands[1..], true)
      case Unreachable => ScanLan(cfg, cands[1..], sawPending)
  }

  function Scan(cfg: Config, bound: Ack, lan: seq<Candidate>, hosts: seq<Candidate>): ScanResult {
    if cfg.boundId != "" && cfg.boundIp != "" && !Handshake(bound, cfg.host).Unreachable? then
      match Handshake(bound, cfg.host)
      case Accepted(id, ip) =>
        if id == cfg.boundId then ScanResult(0, id, ip, cfg.host, cfg.port) else NoResult(cfg, -1)
      case _ => NoResult(cfg, 1)
    else if lan == [] then ScanHosts(cfg, hosts)
    else ScanLan(cfg, lan, false)
  }

  // ---- what a scan is meant to find ----

  /** An approval that names a server; any other acknowledgement is a refusal. */
  predicate Grants(a: Ack) { a.Ack? && a.approved && a.serverId != "" }

  predicate Refuses(a: Ack) { a.Ack? && !(a.approved && a.serverId != "") }

  /** An approval by a server this agent may be bound to. */
  predicate Welcome(cfg: Config, a: Ack) {
    Grants(a) && (cfg.boundId == "" || a.serverId == cfg.boundId)
  }

  predicate NoneWelcome(cfg: Config, cands: seq<Candidate>) {
    forall i :: 0 <= i < |cands| ==> !Welcome(cfg, cands[i].ack)
  }

  predicate SomeRefuses(cands: seq<Candidate>) {
    exists i :: 0 <= i < |cands| && Refuses(cands[i].ack)
  }

  /** The first candidate that is welcome. */
  predicate FirstWelcome(cfg: Config, cands: seq<Candidate>, i: nat) {
    i < |cands| && Welcome(cfg, cands[i].ack) && NoneWelcome(cfg, cands[..i])
  }

  /** The first host that is welcome or refuses. */
  predicate FirstDeciding(cfg: Config, hosts: seq<Candidate>, i: nat) {
    && i < |hosts| && (Welcome(cfg, hosts[i].ack) || Refuses(hosts[i].ack))
    && NoneWelcome(cfg, hosts[..i]) && !SomeRefuses(hosts[..i])
  }

  function AddressIn(cfg: Config, a: Ack): string
    requires a.Ack?
  {
    if a.serverIp != "" then a.serverIp else cfg.host
  }

  /** The bound server is asked first and its answer is final; without one the search goes on. */
  ghost predicate BoundDecides(cfg: Config, bound: Ack, r: ScanResult) {
    if Grants(bound) then
      r == if bound.serverId == cfg.boundId then ScanResult(0, bound.serverId, AddressIn(cfg, bound), cfg.host, cfg.port)
           else NoResult(cfg, -1)
    else r == NoResult(cfg, 1)
  }

  /** Success at a host that answered the broadcast: the agent moves to its address. */
  function Found(cfg: Config, c: Candidate): ScanResult
    requires c.ack.Ack?
  {
    var ip := AddressIn(cfg, c.ack);
    ScanResult(0, c.ack.serverId, if ip != "" then ip else c.host, c.host, c.port)
  }

  /** The answer of the configured host that decides. */
  function Verdict(cfg: Config, a: Ack): ScanResult
    requires a.Ack?
  {
    if Refuses(a) then NoResult(cfg, 1) else ScanResult(0, a.serverId, AddressIn(cfg, a), cfg.host, cfg.port)
  }

  /** Among the hosts that answered the broadcast the first welcome one is taken; failing that, a refusal counts. */
  ghost predicate LanDecides(cfg: Config, lan: seq<Candidate>, r: ScanResult) {
    && (forall i: nat :: FirstWelcome(cfg, lan, i) ==> r == Found(cfg, lan[i]))
    && (NoneWelcome(cfg, lan) ==> r == NoResult(cfg, if SomeRefuses(lan) then 1 else -1))
  }

  /** Of the configured hosts the first that is welcome or refuses decides. */
  ghost predicate HostsDecide(cfg: Config, hosts: seq<Candidate>, r: ScanResult) {
    && (forall i: nat :: FirstDeciding(cfg, hosts, i) ==> r == Verdict(cfg, hosts[i].ack))
    && (NoneWelcome(cfg, hosts) && !SomeRefuses(hosts) ==> r == NoResult(cfg, -1))
  }

  /** The result of a scan, by what was asked and what was answered. */
  ghost predicate Decided(cfg: Config, bound: Ack, lan: seq<Candidate>, hosts: seq<Candidate>, r: ScanResult) {
    if cfg.boundId != "" && cfg.boundIp != "" && bound.Ack? then BoundDecides(cfg, bound, r)
    else if lan != [] then LanDecides(cfg, lan, r)
    else HostsDecide(cfg, hosts, r)
  }

  lemma NoneWelcomeFirst(cfg: Config, cands: seq<Candidate>)
    requires cands != []
    ensures NoneWelcome(cfg, cands) <==> !Welcome(cfg, cands[0].ack) && NoneWelcome(cfg, cands[1..])
    ensures SomeRefuses(cands) <==> Refuses(cands[0].ack) || SomeRefuses(cands[1..])
  {
    assert forall i :: 0 < i < |cands| ==> cands[i] == cands[1..][i - 1];
  }

  lemma FirstWelcomeLater(cfg: Config, cands: seq<Candidate>, i: nat)
    requires cands != []
    ensures FirstWelcome(cfg, cands, i) <==>
            if i == 0 then Welcome(cfg, cands[0].ack)
            else !Welcome(cfg, cands[0].ack) && FirstWelcome(cfg, cands[1..], i - 1)
    ensures FirstDeciding(cfg, cands, i) <==>
            if i == 0 then Welcome(cfg, cands[0].ack) || Refuses(cands[0].ack)
            else !Welcome(cfg, cands[0].ack) && !Refuses(cands[0].ack) && FirstDeciding(cfg, cands[1..], i - 1)
  {
    if 0 < i <= |cands| {
      NoneWelcomeFirst(cfg, cands[..i]);
      assert cands[..i][1..] == cands[1..][..i - 1];
    }
  }

  lemma {:induction false} ScanLanFinds(cfg: Config, cands: seq<Candidate>, saw: bool, i: nat)
    requires FirstWelcome(cfg, cands, i)
    ensures ScanLan(cfg, cands, saw) == Found(cfg, cands[i])
    decreases |cands|
  {
    FirstWelcomeLater(cfg, cands, i);
    if i > 0 { ScanLanFinds(cfg, cands[1..], saw || Refuses(cands[0].ack), i - 1); }
  }

  lemma {:induction false} ScanLanFails(cfg: Config, cands: seq<Candidate>, saw: bool)
    requires NoneWelcome(cfg, cands)
    ensures ScanLan(cfg, cands, saw) == NoResult(cfg, if saw || SomeRefuses(cands) then 1 else -1)
    decreases |cands|
  {
    if cands != [] {
      NoneWelcomeFirst(cfg, cands);
      ScanLanFails(cfg, cands[1..], saw || Refuses(cands[0].ack));
    }
  }

  lemma {:induction false} ScanHostsFinds(cfg: Config, hosts: seq<Candidate>, i: nat)
    requires FirstDeciding(cfg, hosts, i)
    ensures ScanHosts(cfg, hosts) == Verdict(cfg, hosts[i].ack)
    decreases |hosts|
  {
    FirstWelcomeLater(cfg, hosts, i);
    if i > 0 { ScanHostsFinds(cfg, hosts[1..], i - 1); }
  }

  lemma {:induction false} ScanHostsFails(cfg: Config, hosts: seq<Candidate>)
    requires NoneWelcome(cfg, hosts) && !SomeRefuses(hosts)
    ensures ScanHosts(cfg, hosts) == NoResult(cfg, -1)
    decreases |hosts|
  {
    if hosts != [] {
      NoneWelcomeFirst(cfg, hosts);
      ScanHostsFails(cfg, hosts[1..]);
    }
  }

  /** For all answers: who is asked, whose answer decides, and what is returned. */
  lemma ScanExact(cfg: Config, bound: Ack, lan: seq<Candidate>, hosts: seq<Candidate>)
    ensures Decided(cfg, bound, lan, hosts, Scan(cfg, bound, lan, hosts))
  {
    forall i: nat | FirstWelcome(cfg, lan, i) ensures ScanLan(cfg, lan, false) == Found(cfg, lan[i]) {
      ScanLanFinds(cfg, lan, false, i);
    }
    forall i: nat | FirstDeciding(cfg, hosts, i) ensures ScanHosts(cfg, hosts) == Verdict(cfg, hosts[i].ack) {
      ScanHostsFinds(cfg, hosts, i);
    }
    if NoneWelcome(cfg, lan) { ScanLanFails(cfg, lan, false); }
    if NoneWelcome(cfg, hosts) && !SomeRefuses(hosts) { ScanHostsFails(cfg, hosts); }
  }

  lemma {:induction false} SomeFirst(cfg: Config, cands: seq<Candidate>) returns (i: nat)
    requires !NoneWelcome(cfg, cands)
    ensures FirstWelcome(cfg, cands, i)
  {
    NoneWelcomeFirst(cfg, cands);
    if Welcome(cfg, cands[0].ack) {
      i := 0;
      FirstWelcomeLater(cfg, cands, 0);
    } else {
      var j := SomeFirst(cfg, cands[1..]);
      i := j + 1;
      FirstWelcomeLater(cfg, cands, i);
    }
  }

  lemma {:induction false} SomeDecides(cfg: Config, hosts: seq<Candidate>) returns (i: nat)
    requires !NoneWelcome(cfg, hosts) || SomeRefuses(hosts)
    ensures FirstDeciding(cfg, hosts, i)
  {
    NoneWelcomeFirst(cfg, hosts);
    if Welcome(cfg, hosts[0].ack) || Refuses(hosts[0].ack) {
      i := 0;
      FirstWelcomeLater(cfg, hosts, 0);
    } else {
      var j := SomeDecides(cfg, hosts[1..]);
      i := j + 1;
      FirstWelcomeLater(cfg, hosts, i);
    }
  }

  /** That description leaves no choice. */
  lemma DecidedOnce(cfg: Config, bound: Ack, lan: seq<Candidate>, hosts: seq<Candidate>, r: ScanResult, r': ScanResult)
    requires Decided(cfg, bound, lan, hosts, r) && Decided(cfg, bound, lan, hosts, r')
    ensures r == r'
  {
    if !(cfg.boundId != "" && cfg.boundIp != "" && bound.Ack?) {
      if lan != [] {
        if !NoneWelcome(cfg, lan) { var i := SomeFirst(cfg, lan); }
      } else if !NoneWelcome(cfg, hosts) || SomeRefuses(hosts) {
        var i := SomeDecides(cfg, hosts);
      }
    }
  }

  /** Without success nothing is returned but the code, and the agent stays where it was. */
  lemma ScanFailure(cfg: Config, bound: Ack, lan: seq<Candidate>, hosts: seq<Candidate>)
    ensures var r := Scan(cfg, bound, lan, hosts); r.rc != 0 ==> r == NoResult(cfg, r.rc)
  {
    ScanExact(cfg, bound, lan, hosts);
    if !NoneWelcome(cfg, lan) { var i := SomeFirst(cfg, lan); }
    if !NoneWelcome(cfg, hosts) || SomeRefuses(hosts) { var i := SomeDecides(cfg, hosts); }
  }

  /** The three result codes. */
  lemma ScanCodes(cfg: Config, bound: Ack, lan: seq<Candidate>, hosts: seq<Candidate>)
    ensures var rc, asked := Scan(cfg, bound, lan, hosts).rc, cfg.boundId != "" && cfg.boundIp != "" && bound.Ack?;
            && (rc == 0 <==> if asked then Welcome(cfg, bound) else if lan != [] then !NoneWelcome(cfg, lan)
                             else exists i: nat :: FirstDeciding(cfg, hosts, i) && Welcome(cfg, hosts[i].ack))
            && (rc == 1 <==> if asked then Refuses(bound) else if lan != [] then NoneWelcome(cfg, lan) && SomeRefuses(lan)
                             else exists i: nat :: FirstDeciding(cfg, hosts, i) && Refuses(hosts[i].ack))
            && (rc == 0 || rc == 1 || rc == -1)
  {
    ScanExact(cfg, bound, lan, hosts);
    if !NoneWelcome(cfg, lan) { var i := SomeFirst(cfg, lan); }
    if !NoneWelcome(cfg, hosts) || SomeRefuses(hosts) { var i := SomeDecides(cfg, hosts); }
  }

  /** `ctc_scan_server`; `bound` is what the bound server answers, if it is asked. */
  method ScanServer(cfg: Config, bound: Ack, lan: seq<Candidate>, hosts: seq<Candidate>) returns (r: ScanResult)
    ensures r == Scan(cfg, bound, lan, hosts)
    ensures Decided(cfg, bound, lan, hosts, r)
  {
    r := Search(cfg, bound, lan, hosts);
    ScanExact(cfg, bound, lan, hosts);
  }

  /** The three parts of `ctc_scan_server`. */
  method Search(cfg: Config, bound: Ack, lan: seq<Candidate>, hosts: seq<Candidate>) returns (r: ScanResult)
    ensures r == Scan(cfg, bound, lan, hosts)
  {
    if cfg.boundId != "" && cfg.boundIp != "" {
      var o := Handshake(bound, cfg.host);
      if o.Accepted? {
        if o.id == cfg.boundId { return ScanResult(0, o.id, o.ip, cfg.host, cfg.port); }
        return NoResult(cfg, -1);
      }
      if o.NotApproved? { return NoResult(cfg, 1); }
    }
    if lan == [] {
      for i := 0 to |hosts|
        invariant ScanHosts(cfg, hosts) == ScanHosts(cfg, hosts[i..])
      {
        assert hosts[i..][1..] == hosts[i + 1..];
        var o := Handshake(hosts[i].ack, cfg.host);
        if o.Accepted? && (cfg.boundId == "" || o.id == cfg.boundId) {
          return ScanResult(0, o.id, o.ip, cfg.host, cfg.port);
        }
        if o.NotApproved? { return NoResult(cfg, 1); }
      }
      return NoResult(cfg, -1);
    }
    var sawPending := false;
    for i := 0 to |lan|
      invariant ScanLan(cfg, lan, false) == ScanLan(cfg, lan[i..], sawPending)
    {
      assert lan[i..][1..] == lan[i + 1..];
      var o := Handshake(lan[i].ack, cfg.host);
      if o.Accepted? {
        if cfg.boundId != "" && o.id != cfg.boundId { continue; }
        return ScanResult(0, o.id, if o.ip != "" then o.ip else lan[i].host, lan[i].host, lan[i].port);
      }
      if o.NotApproved? { sawPending := true; }
    }
    return NoResult(cfg, if sawPending then 1 else -1);
  }

  predicate Approves(a: Ack, id: string) {
    a.Ack? && a.approved && a.serverId == id
  }

  predicate ApprovedIn(id: string, cands: seq<Candidate>) {
    exists i :: 0 <= i < |cands| && Approves(cands[i].ack, id)
  }

  /** Some host that was asked approved the agent and named this id. */
  predicate ApprovedBy(id: string, bound: Ack, lan: seq<Candidate>, hosts: seq<Candidate>) {
    Approves(bound, id) || ApprovedIn(id, lan) || ApprovedIn(id, hosts)
  }

  lemma {:induction false} ScanHostsSound(cfg: Config, hosts: seq<Candidate>)
    ensures var r := ScanHosts(cfg, hosts);
            r.rc == 0 ==> r.id != "" && Acceptable(cfg, r.id) && ApprovedIn(r.id, hosts)
  {
    if hosts != [] {
      ScanHostsSound(cfg, hosts[1..]);
      assert forall i :: 0 <= i < |hosts[1..]| ==> hosts[1..][i] == hosts[i + 1];
    }
  }

  lemma {:induction false} ScanLanSound(cfg: Config, cands: seq<Candidate>, saw: bool)
    ensures var r := ScanLan(cfg, cands, saw);
            r.rc == 0 ==> r.id != "" && Acceptable(cfg, r.id) && ApprovedIn(r.id, cands)
    decreases |cands|
  {
    if cands != [] {
      ScanLanSound(cfg, cands[1..], saw);
      ScanLanSound(cfg, cands[1..], true);
      assert forall i :: 0 <= i < |cands[1..]| ==> cands[1..][i] == cands[i + 1];
    }
  }

  /** A scan succeeds only with an id that approved the agent, and with no other than the bound one. */
  lemma ScanSound(cfg: Config, bound: Ack, lan: seq<Candidate>, hosts: seq<Candidate>)
    ensures var r := Scan(cfg, bound, lan, hosts);
            r.rc == 0 ==> r.id != "" && Acceptable(cfg, r.id) && ApprovedBy(r.id, bound, lan, hosts)
  {
    ScanHostsSound(cfg, hosts);
    ScanLanSound(cfg, lan, false);
  }

  // ---- the main loop ----

  /** The configuration in memory and the one last saved: the file holds `FileText(disk)`. */
  datatype State = State(cfg: Config, disk: Config)

  datatype Event =
    | Scanned(bound: Ack, lan: seq<Candidate>, hosts: seq<Candidate>)  // only while not approved
    | ConnectFailed
    | RegisterFailed
    | Registered
    | ConfigSet(key: string, value: string)
    | Restarted(hostName: string, forceHost: Option<string>, forcePort: Option<int>)

  /** `ctc_config_set`: `None` for a key that may not be set; the binding is not among them. */
  function WithRemote(c: Config, key: string, value: string): (r: Option<Config>)
    ensures r.Some? ==> r.value.boundId == c.boundId && r.value.boundIp == c.boundIp && r.value.approved == c.approved
    ensures r.Some? ==> r.value.host == if key == "server_host" then value else c.host
  {
    var n := Atoi(value);
    if key == "server_host" then Some(c.(host := value))
    else if key == "server_port" then Some(c.(port := n))
    else if key == "name" then Some(c.(name := value))
    else if key == "metrics_interval" then Some(if n >= 5 then c.(metricsInterval := n) else c)
    else if key == "heartbeat_interval" then Some(if n >= 3 then c.(heartbeatInterval := n) else c)
    else if key == "log_level" then Some(c.(logLevel := n))
    else if key == "discover_enable" then Some(c.(discoverEnable := if n != 0 then 1 else 0))
    else if key == "discover_port" then Some(if 0 < n < 65536 then c.(discoverPort := n) else c)
    else if key == "server_fingerprint" then Some(c.(fingerprint := value))
    else None
  }

  /** Values that a remote setting takes as the file would. */
  predicate InBounds(key: string, value: string) {
    var n := Atoi(value);
    || (key == "server_host" && ',' !in value)
    || key == "server_port" || key == "name" || key == "log_level" || key == "server_fingerprint"
    || (key == "metrics_interval" && n >= 5) || (key == "heartbeat_interval" && n >= 3)
    || (key == "discover_enable" && (n == 0 || n == 1)) || (key == "discover_port" && 0 < n < 65536)
  }

  /** A remote setting does what a line of the file with that key and value does. */
  lemma RemoteAsLine(c: Config, key: string, value: string)
    requires InBounds(key, value)
    ensures WithRemote(c, key, value) == Some(WithRow(c, Row(key, value)))
  {
    KeysPlain();
    if key == "server_host" { NoComma(value); }
  }

  lemma {:induction false} NoComma(s: string)
    requires ',' !in s
    ensures FirstHost(s) == s
  {
    if s != "" {
      NoComma(s[1..]);
      assert s[..Index(s, ',')] == [s[0]] + s[1..][..Index(s[1..], ',')];
    }
  }

  /** A number out of bounds changes nothing; `discover_enable` is a flag. */
  lemma RemoteOutOfBounds(c: Config, key: string, value: string)
    ensures key in {"metrics_interval", "heartbeat_interval", "discover_port"} && !InBounds(key, value) ==>
              WithRemote(c, key, value) == Some(c)
    ensures key == "discover_enable" && !InBounds(key, value) ==>
              WithRemote(c, key, value) == Some(WithRow(c, Row(key, "1")))
  {
    OneIsOne();
    KeysPlain();
  }

  lemma OneIsOne()
    ensures Atoi("1") == 1
  {
    assert FlatJson.SkipSpace("1") == "1" && DigitCount("1") == 1 && "1"[..1] == "1";
    assert "1"[..0] == "" && Numbers.Number("1") == 1;
  }

  /** `ctc_config_defaults` */
  function Defaults(hostName: string): Config {
    Config("127.0.0.1", 9000, hostName, hostName, "", 30, 10, 1, 0, 0, "", 0, 0, "", "", 0, false)
  }

  function Forced(c: Config, forceHost: Option<string>, forcePort: Option<int>): Config {
    c.(host := if forceHost.Some? then forceHost.value else c.host,
       port := if forcePort.Some? then forcePort.value else c.port)
  }

  predicate Enabled(s: State, e: Event) {
    match e
    case Scanned(_, _, _) => !s.cfg.approved
    case ConnectFailed => s.cfg.approved
    case RegisterFailed => s.cfg.approved
    case Registered => s.cfg.approved
    case ConfigSet(_, _) => s.cfg.approved
    case Restarted(_, _, _) => true
  }

  function AfterScan(c: Config, r: ScanResult): Config {
    var moved := c.(host := r.host, port := r.port);
    if r.rc != 0 then moved
    else
      var ip := if r.ip != "" then r.ip else moved.host;
      moved.(boundId := r.id, boundIp := ip, boundPort := if c.port != 0 then c.port else r.port, approved := true)
  }

  function Step(s: State, e: Event): State
    requires Enabled(s, e)
  {
    match e
    case Scanned(bound, lan, hosts) =>
      var r := Scan(s.cfg, bound, lan, hosts);
      var c := AfterScan(s.cfg, r);
      if r.rc != 0 then s.(cfg := c) else State(c.(host := c.boundIp, port := c.boundPort), c)
    case ConnectFailed => s.(cfg := s.cfg.(approved := false))
    case RegisterFailed => var c := s.cfg.(approved := false); State(c, c)
    case Registered => s
    case ConfigSet(key, value) =>
      var c := WithRemote(s.cfg, key, value);
      if c.Some? then State(c.value, c.value) else s
    case Restarted(hostName, forceHost, forcePort) =>
      s.(cfg := Forced(Reloaded(FileText(s.disk), Defaults(hostName)), forceHost, forcePort))
  }

  class AgentProcess {
    var cfg: Config
    var file: string
    ghost var disk: Config  // what was saved last

    constructor (disk: Config)
      ensures Valid() && Abs() == State(disk, disk)
    {
      this.disk, cfg, file := disk, disk, FileText(disk);
    }

    ghost predicate Valid()
      reads this
    {
      file == FileText(disk)
    }

    ghost function Abs(): State
      reads this
    {
      State(cfg, disk)
    }

    /** `ctc_config_save` */
    method Save()
      modifies this`file, this`disk
      ensures Valid() && disk == cfg
    {
      file, disk := FileText(cfg), cfg;
    }

    /** The scanning branch of `ctc_conn_run`. */
    method ScanOnce(bound: Ack, lan: seq<Candidate>, hosts: seq<Candidate>) returns (rc: int)
      requires Valid() && !cfg.approved
      modifies this
      ensures Valid() && Abs() == Step(old(Abs()), Scanned(bound, lan, hosts))
      ensures rc == Scan(old(cfg), bound, lan, hosts).rc
      ensures rc != 0 ==> cfg == old(cfg) && file == old(file)
      ensures var r := Scan(old(cfg), bound, lan, hosts);
              rc == 0 ==>
                && cfg.approved && cfg.boundId == r.id && cfg.boundIp == (if r.ip != "" then r.ip else r.host)
                && cfg.host == cfg.boundIp && cfg.port == cfg.boundPort
                && cfg.boundPort == (if old(cfg).port != 0 then old(cfg).port else r.port)
                && file == FileText(cfg.(host := r.host, port := r.port))
    {
      var r := ScanServer(cfg, bound, lan, hosts);
      ScanFailure(cfg, bound, lan, hosts);
      rc := r.rc;
      if rc == 0 {
        Bind(r);
      } else {
        cfg := cfg.(host := r.host, port := r.port);
      }
    }

    /** A successful scan: move to the server's address, note the binding, save, and connect there. */
    method Bind(r: ScanResult)
      requires Valid() && r.rc == 0
      modifies this
      ensures Valid() && disk == AfterScan(old(cfg), r) && cfg == disk.(host := disk.boundIp, port := disk.boundPort)
      ensures cfg.approved && cfg.boundId == r.id && cfg.boundIp == (if r.ip != "" then r.ip else r.host)
      ensures cfg.boundPort == (if old(cfg).port != 0 then old(cfg).port else r.port)
      ensures disk == cfg.(host := r.host, port := r.port)
    {
      var port := cfg.port;
      cfg := cfg.(host := r.host, port := r.port);
      cfg := cfg.(boundId := r.id, boundIp := if r.ip != "" then r.ip else cfg.host,
                  boundPort := if port != 0 then port else cfg.port, approved := true);
      Save();
      cfg := cfg.(host := cfg.boundIp, port := cfg.boundPort);
    }

    /** Connecting failed: rescan, but keep the id; nothing is saved. */
    method OnConnectFailed()
      requires Valid() && cfg.approved
      modifies this`cfg
      ensures Valid() && Abs() == Step(old(Abs()), ConnectFailed)
      ensures cfg == old(cfg).(approved := false)
    {
      cfg := cfg.(approved := false);
    }

    method OnRegisterFailed()
      requires Valid() && cfg.approved
      modifies this
      ensures Valid() && Abs() == Step(old(Abs()), RegisterFailed)
      ensures cfg == old(cfg).(approved := false) && file == FileText(cfg)
    {
      cfg := cfg.(approved := false);
      Save();
    }

    /** The `config_set` command: set and save; false for a key that may not be set. */
    method OnConfigSet(key: string, value: string) returns (ok: bool)
      requires Valid() && cfg.approved
      modifies this
      ensures Valid() && Abs() == Step(old(Abs()), ConfigSet(key, value))
      ensures ok <==> key in {"server_host", "server_port", "name", "metrics_interval", "heartbeat_interval",
                              "log_level", "discover_enable", "discover_port", "server_fingerprint"}
      ensures if ok then file == FileText(cfg) else cfg == old(cfg) && file == old(file)
      ensures InBounds(key, value) ==> cfg == WithRow(old(cfg), Row(key, value))
    {
      if InBounds(key, value) { RemoteAsLine(cfg, key, value); }
      var c := WithRemote(cfg, key, value);
      ok := c.Some?;
      if !ok { return; }
      cfg := c.value;
      Save();
    }

    /** A new process: the file is read, then the command line is applied. */
    method Restart(hostName: string, forceHost: Option<string>, forcePort: Option<int>)
      requires Valid()
      modifies this`cfg
      ensures Valid() && Abs() == Step(old(Abs()), Restarted(hostName, forceHost, forcePort))
      ensures forceHost.Some? ==> cfg.host == forceHost.value
      ensures forcePort.Some? ==> cfg.port == forcePort.value
    {
      var c := Reload(file, Defaults(hostName));
      RestartStep(Abs(), Restarted(hostName, forceHost, forcePort), c);
      if forceHost.Some? { c := c.(host := forceHost.value); }
      if forcePort.Some? { c := c.(port := forcePort.value); }
      cfg := c;
    }
  }

  lemma RestartStep(s: State, e: Event, c: Config)
    requires e.Restarted? && c == Reloaded(FileText(s.disk), Defaults(e.hostName))
    ensures Step(s, e) == s.(cfg := Forced(c, e.forceHost, e.forcePort))
  {
  }

  // ---- write-once binding ----

  predicate IsRun(s: State, run: seq<Event>)
    decreases |run|
  {
    run == [] || (Enabled(s, run[0]) && IsRun(Step(s, run[0]), run[1..]))
  }

  function After(s: State, run: seq<Event>): State
    requires IsRun(s, run)
    decreases |run|
  {
    if run == [] then s else After(Step(s, run[0]), run[1..])
  }

  /** Memory and file hold the same server id, and an approved agent has one. */
  predicate Consistent(s: State) {
    s.cfg.boundId == s.disk.boundId && (s.cfg.approved ==> s.cfg.boundId != "")
    && (s.disk.approved ==> s.disk.boundId != "")
  }

  lemma RestartBinding(s: State, e: Event)
    requires e.Restarted?
    ensures Step(s, e).cfg.boundId == ReadBackId(s.disk) && (Step(s, e).cfg.approved <==> s.disk.approved)
    ensures ReadBackId(s.disk) == s.disk.boundId <==> KeepsId(s.disk)
  {
    ReloadedBinding(s.disk, Defaults(e.hostName));
    KeepsIdExactly(s.disk);
  }

  lemma StepBinding(s: State, e: Event)
    requires Consistent(s) && Enabled(s, e) && (e.Restarted? ==> KeepsId(s.disk))
    ensures Consistent(Step(s, e))
    ensures s.cfg.boundId != "" ==> Step(s, e).cfg.boundId == s.cfg.boundId
    ensures Step(s, e).cfg.boundId != s.cfg.boundId ==>
              e.Scanned? && ApprovedBy(Step(s, e).cfg.boundId, e.bound, e.lan, e.hosts)
  {
    if e.Scanned? { ScanSound(s.cfg, e.bound, e.lan, e.hosts); }
    if e.Restarted? { RestartBinding(s, e); }
  }

  /** An agent comes to take itself for approved by a scan or a restart only. */
  lemma StepApproval(s: State, e: Event)
    requires Enabled(s, e)
    ensures e.Scanned? && Step(s, e).cfg.approved ==>
              Step(s, e).cfg.boundId != "" && ApprovedBy(Step(s, e).cfg.boundId, e.bound, e.lan, e.hosts)
    ensures e.Restarted? ==>
              (Step(s, e).cfg.approved <==> s.disk.approved) && Step(s, e).cfg.boundId == ReadBackId(s.disk)
    ensures !e.Scanned? && !e.Restarted? && Step(s, e).cfg.approved ==>
              s.cfg.approved && Step(s, e).cfg.boundId == s.cfg.boundId
  {
    if e.Scanned? { ScanSound(s.cfg, e.bound, e.lan, e.hosts); }
    if e.Restarted? { RestartBinding(s, e); }
  }

  /** The agent holds this id before and after every step. */
  predicate Holds(s: State, run: seq<Event>, id: string)
    requires IsRun(s, run)
    decreases |run|
  {
    s.cfg.boundId == id && (run == [] || Holds(Step(s, run[0]), run[1..], id))
  }

  /** Whenever the agent restarts, the file keeps the id. */
  predicate RestartsKeep(s: State, run: seq<Event>)
    requires IsRun(s, run)
    decreases |run|
  {
    run == [] || ((run[0].Restarted? ==> KeepsId(s.disk)) && RestartsKeep(Step(s, run[0]), run[1..]))
  }

  /**
   Write-once binding, exactly: over any sequence of scan answers, failures, remote settings and
   restarts an agent that holds a server id holds the same id throughout, if and only if at each
   restart the last id line of the saved file is the held id.
   */
  lemma {:induction false} BindingIsWriteOnce(s: State, run: seq<Event>)
    requires Consistent(s) && IsRun(s, run) && s.cfg.boundId != ""
    ensures Holds(s, run, s.cfg.boundId) <==> RestartsKeep(s, run)
    decreases |run|
  {
    if run != [] {
      if run[0].Restarted? { RestartBinding(s, run[0]); }
      if run[0].Restarted? ==> KeepsId(s.disk) {
        StepBinding(s, run[0]);
        BindingIsWriteOnce(Step(s, run[0]), run[1..]);
      }
    }
  }

  // ---- what keeps the file in order ----

  predicate TidyId(id: string) { Lines.NoNewline(id) && Trim(id) == id }

  predicate TidyAck(a: Ack) {
    a.Ack? ==> TidyId(a.serverId) && Lines.NoNewline(a.serverIp)
  }

  predicate TidyCandidates(cands: seq<Candidate>) {
    forall i :: 0 <= i < |cands| ==> TidyAck(cands[i].ack) && Lines.NoNewline(cands[i].host)
  }

  /** Ids and addresses of one line, ids without blanks at the ends. */
  predicate TidyEvent(e: Event) {
    match e
    case Scanned(bound, lan, hosts) => TidyAck(bound) && TidyCandidates(lan) && TidyCandidates(hosts)
    case ConfigSet(key, value) => key == "server_host" ==> Lines.NoNewline(value)
    case Restarted(_, forceHost, _) => forceHost.Some? ==> Lines.NoNewline(forceHost.value)
    case _ => true
  }

  predicate TidyRun(run: seq<Event>) {
    forall i :: 0 <= i < |run| ==> TidyEvent(run[i])
  }

  predicate TidyConfig(c: Config) {
    TidyId(c.boundId) && Lines.NoNewline(c.boundIp) && Lines.NoNewline(c.host)
  }

  predicate Tidy(s: State) { TidyConfig(s.cfg) && TidyConfig(s.disk) }

  lemma {:induction false} ScanHostsTidy(cfg: Config, hosts: seq<Candidate>)
    requires TidyConfig(cfg) && TidyCandidates(hosts)
    ensures TidyResult(ScanHosts(cfg, hosts))
  {
    if hosts != [] { ScanHostsTidy(cfg, hosts[1..]); }
  }

  lemma {:induction false} ScanLanTidy(cfg: Config, cands: seq<Candidate>, saw: bool)
    requires TidyConfig(cfg) && TidyCandidates(cands)
    ensures TidyResult(ScanLan(cfg, cands, saw))
    decreases |cands|
  {
    if cands != [] {
      ScanLanTidy(cfg, cands[1..], saw);
      ScanLanTidy(cfg, cands[1..], true);
    }
  }

  predicate TidyResult(r: ScanResult) {
    TidyId(r.id) && Lines.NoNewline(r.ip) && Lines.NoNewline(r.host)
  }

  lemma ScanTidy(cfg: Config, bound: Ack, lan: seq<Candidate>, hosts: seq<Candidate>)
    requires TidyConfig(cfg) && TidyAck(bound) && TidyCandidates(lan) && TidyCandidates(hosts)
    ensures TidyResult(Scan(cfg, bound, lan, hosts))
  {
    ScanHostsTidy(cfg, hosts);
    ScanLanTidy(cfg, lan, false);
  }

  lemma TidyKeeps(c: Config)
    requires TidyConfig(c)
    ensures KeepsId(c)
  {
    OneLineAddress(c);
  }

  lemma StepTidy(s: State, e: Event)
    requires Tidy(s) && Enabled(s, e) && TidyEvent(e)
    ensures Tidy(Step(s, e))
  {
    if e.Scanned? { ScanTidy(s.cfg, e.bound, e.lan, e.hosts); }
    if e.Restarted? {
      RestartBinding(s, e);
      TidyKeeps(s.disk);
      ReloadedOneLine(FileText(s.disk), Defaults(e.hostName));
    }
  }

  lemma {:induction false} TidyRestartsKeep(s: State, run: seq<Event>)
    requires Tidy(s) && IsRun(s, run) && TidyRun(run)
    ensures RestartsKeep(s, run)
    decreases |run|
  {
    if run != [] {
      assert TidyEvent(run[0]);
      TidyKeeps(s.disk);
      StepTidy(s, run[0]);
      TidyRestartsKeep(Step(s, run[0]), run[1..]);
    }
  }

  /** With ids and addresses of one line the binding is write-once in every run. */
  lemma TidyIsWriteOnce(s: State, run: seq<Event>)
    requires Consistent(s) && Tidy(s) && IsRun(s, run) && TidyRun(run) && s.cfg.boundId != ""
    ensures Holds(s, run, s.cfg.boundId)
  {
    TidyRestartsKeep(s, run);
    BindingIsWriteOnce(s, run);
  }

  lemma TwoSteps(s: State, e: Event, f: Event)
    requires Enabled(s, e) && Enabled(Step(s, e), f)
    ensures IsRun(s, [e, f]) && After(s, [e, f]) == Step(Step(s, e), f)
  {
    var s1 := Step(s, e);
    assert [e, f][1..] == [f] && [f][1..] == [];
    assert IsRun(Step(s1, f), []) && After(Step(s1, f), []) == Step(s1, f);
    assert IsRun(s1, [f]) && After(s1, [f]) == Step(s1, f);
  }

  lemma FirstAnswerBinds(s: State, c: Candidate, id: string, ip: string)
    requires s.cfg.boundId == "" && !s.cfg.approved && c.ack == Ack(true, id, ip) && id != "" && ip != ""
    ensures var s' := Step(s, Scanned(NoAck, [c], []));
            s'.cfg.boundId == id && s'.disk.boundId == id && s'.disk.boundIp == ip && s'.disk.approved
  {
    assert ScanLan(s.cfg, [c], false) == ScanResult(0, id, ip, c.host, c.port);
  }

  /** A single welcome answer to the broadcast leaves the agent approved and bound to who gave it. */
  lemma WelcomeBinds(s: State, c: Candidate)
    requires !s.cfg.approved && Welcome(s.cfg, c.ack)
    ensures var s' := Step(s, Scanned(NoAck, [c], []));
            s'.cfg.approved && s'.cfg.boundId == c.ack.serverId && s'.disk.approved && s'.disk.boundId == c.ack.serverId
  {
    ScanExact(s.cfg, NoAck, [c], []);
    FirstWelcomeLater(s.cfg, [c], 0);
    assert Scan(s.cfg, NoAck, [c], []) == Found(s.cfg, [c][0]);
  }

  /** The bound server's own approval is enough, wherever else the agent could turn. */
  lemma BoundServerBinds(s: State, bound: Ack, lan: seq<Candidate>, hosts: seq<Candidate>)
    requires !s.cfg.approved && s.cfg.boundId != "" && s.cfg.boundIp != ""
    requires Grants(bound) && bound.serverId == s.cfg.boundId
    ensures var s' := Step(s, Scanned(bound, lan, hosts)); s'.cfg.approved && s'.cfg.boundId == s.cfg.boundId
  {
    ScanExact(s.cfg, bound, lan, hosts);
  }

  /** An approving answer whose address carries an id line: after a restart the agent is bound to that id. */
  lemma ReboundByRestart(s: State, c: Candidate, id: string, a: string, other: string, hostName: string)
    requires s.cfg.boundId == "" && !s.cfg.approved && id != "" && other != ""
    requires Lines.NoNewline(id) && Lines.NoNewline(a) && Lines.NoNewline(other)
    requires c.ack == Ack(true, id, a + ("\n" + (ID + ("=" + other))))
    ensures var scan, restart := Scanned(NoAck, [c], []), Restarted(hostName, None, None);
            && IsRun(s, [scan, restart]) && Step(s, scan).cfg.boundId == id
            && After(s, [scan, restart]).cfg.boundId == other && After(s, [scan, restart]).cfg.approved
  {
    var scan, restart := Scanned(NoAck, [c], []), Restarted(hostName, None, None);
    FirstAnswerBinds(s, c, id, c.ack.serverIp);
    AddressReplacesId(Step(s, scan).disk, a, other);
    RestartBinding(Step(s, scan), restart);
    TwoSteps(s, scan, restart);
  }

  /** One such answer. */
  lemma ReboundToX(s: State, hostName: string)
    requires s.cfg.boundId == "" && !s.cfg.approved
    ensures var c := Candidate("1.1.1.1", 9000, Ack(true, "S", "1.1.1.1\nbound_server_id=X"));
            var scan, restart := Scanned(NoAck, [c], []), Restarted(hostName, None, None);
            && IsRun(s, [scan, restart]) && Step(s, scan).cfg.boundId == "S"
            && After(s, [scan, restart]).cfg.boundId == "X"
  {
    var c := Candidate("1.1.1.1", 9000, Ack(true, "S", "1.1.1.1\nbound_server_id=X"));
    assert c.ack.serverIp == "1.1.1.1" + ("\n" + (ID + ("=" + "X")));
    ReboundByRestart(s, c, "S", "1.1.1.1", "X", hostName);
  }
}
