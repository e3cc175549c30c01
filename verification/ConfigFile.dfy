/**
 The agent's configuration file: what is printed, and what the two readers make of it.  The
 main question is when the server id that was held is the one that is read back.
 */
module ConfigFile {
  import opened Json
  import opened Numbers
  import opened Lines
  import FlatJson

  datatype Config = Config(
    host: string, port: int, agentId: string, name: string, token: string,
    metricsInterval: int, heartbeatInterval: int, logLevel: int, useTls: int, tlsSkipVerify: int,
    fingerprint: string, discoverEnable: int, discoverPort: int,
    boundId: string, boundIp: string, boundPort: int, approved: bool)

  // ---- saving ----

  function IntText(n: int): string {
    if n < 0 then "-" + Decimal(-n) else Decimal(n)
  }

  datatype Row = Row(key: string, value: string)

  const ID: string := "bound_server_id"
  const IP: string := "bound_server_ip"
  const PORT: string := "bound_server_port"
  const APPROVED: string := "approved"

  function ServerRows(c: Config): seq<Row> {
    [Row("server_host", c.host), Row("server_port", IntText(c.port)), Row("agent_id", c.agentId),
     Row("name", c.name), Row("token", c.token)]
  }

  function ReportRows(c: Config): seq<Row> {
    [Row("metrics_interval", IntText(c.metricsInterval)), Row("heartbeat_interval", IntText(c.heartbeatInterval)),
     Row("log_level", IntText(c.logLevel)), Row("use_tls", IntText(c.useTls))]
  }

  function DiscoverRows(c: Config): seq<Row> {
    [Row("tls_skip_verify", IntText(c.tlsSkipVerify)), Row("server_fingerprint", c.fingerprint),
     Row("discover_enable", IntText(c.discoverEnable)), Row("discover_port", IntText(c.discoverPort))]
  }

  /** The settings, in the order they are printed before the binding. */
  function SettingRows(c: Config): seq<Row> {
    ServerRows(c) + ReportRows(c) + DiscoverRows(c)
  }

  function FlagText(b: bool): string { if b then "1" else "0" }

  function BindingRows(c: Config): seq<Row> {
    [Row(ID, c.boundId), Row(IP, c.boundIp), Row(PORT, IntText(c.boundPort)), Row(APPROVED, FlagText(c.approved))]
  }

  function RowText(r: Row): string {
    r.key + ("=" + (r.value + "\n"))
  }

  function RowsText(rows: seq<Row>): string {
    if rows == [] then "" else RowText(rows[0]) + RowsText(rows[1..])
  }

  /** `ctc_config_save`. */
  function FileText(c: Config): string {
    "# ctforge agent config\n" + RowsText(SettingRows(c) + BindingRows(c))
  }

  // ---- lines ----

  /** What `fgets` returns, call by call, without the newlines. */
  function FileLines(text: string): seq<string> {
    var p := Split(text);
    LinesOf(p) + (if TailOf(p) == "" then [] else [TailOf(p)])
  }

  /** The first line of a value, and the lines it would add to a file. */
  function FirstLine(v: string): string {
    v[..NewlineAt(v, 0)]
  }

  function LaterLines(v: string): seq<string> {
    var k := NewlineAt(v, 0);
    if k == |v| then [] else LinesOf(Split(v[k + 1..] + "\n"))
  }

  function RowLines(r: Row): seq<string> {
    [r.key + ("=" + FirstLine(r.value))] + LaterLines(r.value)
  }

  function AllLines(rows: seq<Row>): seq<string> {
    if rows == [] then [] else RowLines(rows[0]) + AllLines(rows[1..])
  }

  /** A text that ends with a newline, as its lines. */
  lemma SplitEnded(s: string)
    ensures TailOf(Split(s + "\n")) == ""
    ensures NoNewline(s) ==> LinesOf(Split(s + "\n")) == [s]
  {
    SplitConcat(s, "\n");
    ContinuedParts(Split(s), "\n");
    SplitProper(s, 0);
    TailHasNoNewline(Split(s));
    var t := TailOf(Split(s));
    SplitLine(t, "");
    assert t + ("\n" + "") == t + "\n";
    NoLines("", 0);
    if NoNewline(s) { NoLines(s, 0); }
  }

  lemma RowSplits(r: Row)
    requires NoNewline(r.key)
    ensures LinesOf(Split(RowText(r))) == RowLines(r) && TailOf(Split(RowText(r))) == ""
  {
    var k := NewlineAt(r.value, 0);
    var first := r.key + ("=" + FirstLine(r.value));
    NewlineFirst(r.value, 0);
    assert r.value[0..k] == r.value[..k];
    if k == |r.value| {
      assert FirstLine(r.value) == r.value && RowText(r) == first + "\n";
      SplitEnded(first);
      assert [first] + [] == [first];
    } else {
      var rest := r.value[k + 1..] + "\n";
      assert RowText(r) == first + ("\n" + rest) by { RowTextAt(r, k); }
      SplitLine(first, rest);
      SplitEnded(r.value[k + 1..]);
    }
  }

  lemma RowTextAt(r: Row, k: nat)
    requires k < |r.value| && r.value[k] == '\n'
    ensures RowText(r) == r.key + ("=" + r.value[..k]) + ("\n" + (r.value[k + 1..] + "\n"))
  {
    assert r.value == r.value[..k] + ("\n" + r.value[k + 1..]);
  }

  /** A text that ends with its line's end, followed by another. */
  lemma SplitJoin(a: string, b: string)
    requires TailOf(Split(a)) == ""
    ensures LinesOf(Split(a + b)) == LinesOf(Split(a)) + LinesOf(Split(b)) && TailOf(Split(a + b)) == TailOf(Split(b))
  {
    SplitConcat(a, b);
    ContinuedParts(Split(a), b);
    assert "" + b == b;
  }

  predicate GoodKeys(rows: seq<Row>) {
    forall i :: 0 <= i < |rows| ==> NoNewline(rows[i].key)
  }

  lemma {:induction false} RowsSplit(rows: seq<Row>)
    requires GoodKeys(rows)
    ensures LinesOf(Split(RowsText(rows))) == AllLines(rows) && TailOf(Split(RowsText(rows))) == ""
  {
    if rows == [] {
      NoLines("", 0);
    } else {
      RowSplits(rows[0]);
      RowsSplit(rows[1..]);
      SplitJoin(RowText(rows[0]), RowsText(rows[1..]));
    }
  }

  lemma {:induction false} AllLinesConcat(a: seq<Row>, b: seq<Row>)
    ensures AllLines(a + b) == AllLines(a) + AllLines(b)
  {
    if a == [] {
      assert a + b == b;
    } else {
      assert (a + b)[1..] == a[1..] + b;
      AllLinesConcat(a[1..], b);
      assert RowLines(a[0]) + (AllLines(a[1..]) + AllLines(b)) == RowLines(a[0]) + AllLines(a[1..]) + AllLines(b);
    }
  }

  /** The lines of a saved file: a comment, what the settings print, then the binding. */
  lemma SavedLines(c: Config)
    ensures FileLines(FileText(c)) ==
            ["# ctforge agent config"] + AllLines(SettingRows(c)) + AllLines(BindingRows(c))
  {
    var rows := SettingRows(c) + BindingRows(c);
    KeysAreLines(c);
    RowsSplit(rows);
    AllLinesConcat(SettingRows(c), BindingRows(c));
    CommentFirst(RowsText(rows));
    NoTail(FileText(c));
    Lines.Assoc(["# ctforge agent config"], AllLines(SettingRows(c)), AllLines(BindingRows(c)));
  }

  lemma NoTail(text: string)
    ensures TailOf(Split(text)) == "" ==> FileLines(text) == LinesOf(Split(text))
  {
    assert LinesOf(Split(text)) + [] == LinesOf(Split(text));
  }

  lemma CommentFirst(s: string)
    ensures LinesOf(Split("# ctforge agent config\n" + s)) == ["# ctforge agent config"] + LinesOf(Split(s))
    ensures TailOf(Split("# ctforge agent config\n" + s)) == TailOf(Split(s))
  {
    var comment := "# ctforge agent config";
    assert NoNewline(comment);
    assert "# ctforge agent config\n" + s == comment + ("\n" + s);
    SplitLine(comment, s);
  }

  lemma KeysAreLines(c: Config)
    ensures GoodKeys(SettingRows(c) + BindingRows(c))
  {
    ServerKeys(c);
    ReportKeys(c);
    DiscoverKeys(c);
    BindingKeys(c);
    GoodKeysConcat(ServerRows(c), ReportRows(c));
    GoodKeysConcat(ServerRows(c) + ReportRows(c), DiscoverRows(c));
    GoodKeysConcat(SettingRows(c), BindingRows(c));
  }

  lemma GoodKeysConcat(a: seq<Row>, b: seq<Row>)
    requires GoodKeys(a) && GoodKeys(b)
    ensures GoodKeys(a + b)
  {
  }

  lemma ServerKeys(c: Config)
    ensures GoodKeys(ServerRows(c))
  {
    assert NoNewline("server_host") && NoNewline("server_port") && NoNewline("agent_id");
    assert NoNewline("name") && NoNewline("token");
  }

  lemma ReportKeys(c: Config)
    ensures GoodKeys(ReportRows(c))
  {
    assert NoNewline("metrics_interval") && NoNewline("heartbeat_interval");
    assert NoNewline("log_level") && NoNewline("use_tls");
  }

  lemma DiscoverKeys(c: Config)
    ensures GoodKeys(DiscoverRows(c))
  {
    assert NoNewline("tls_skip_verify") && NoNewline("server_fingerprint");
    assert NoNewline("discover_enable") && NoNewline("discover_port");
  }

  lemma BindingKeys(c: Config)
    ensures GoodKeys(BindingRows(c))
  {
    assert NoNewline(ID) && NoNewline(IP) && NoNewline(PORT) && NoNewline(APPROVED);
  }

  // ---- reading one line ----

  function TrimEnd(s: string): string {
    if s != "" && FlatJson.IsSpace(s[|s| - 1]) then TrimEnd(s[..|s| - 1]) else s
  }

  /** `trim` */
  function Trim(s: string): string {
    TrimEnd(FlatJson.SkipSpace(s))
  }

  function Index(s: string, c: char): (i: nat)
    ensures i <= |s| && (i < |s| ==> s[i] == c)
  {
    if s == "" || s[0] == c then 0 else 1 + Index(s[1..], c)
  }

  /** Which of the two readers: `ctc_config_load` trims, `ctc_binding_load` does not. */
  datatype Reader = Trimming | Exact

  /** The key and value a reader sees in a line, if any. */
  function Entry(line: string, rd: Reader): Option<Row> {
    var eq := Index(line, '=');
    if line == "" || line[0] == '#' || (rd == Trimming && line[0] == ';') || eq == |line| then None
    else if rd == Trimming then Some(Row(Trim(line[..eq]), Trim(line[eq + 1..])))
    else Some(Row(line[..eq], line[eq + 1..]))
  }

  function Seen(v: string, rd: Reader): string { if rd == Trimming then Trim(v) else v }

  /** The value of the last line with that key; `d` if there is none. */
  function LastValue(lines: seq<string>, key: string, rd: Reader, d: string): string {
    if lines == [] then d
    else
      var e := Entry(lines[0], rd);
      LastValue(lines[1..], key, rd, if e.Some? && e.value.key == key then e.value.value else d)
  }

  lemma {:induction false} LastValueConcat(a: seq<string>, b: seq<string>, key: string, rd: Reader, d: string)
    ensures LastValue(a + b, key, rd, d) == LastValue(b, key, rd, LastValue(a, key, rd, d))
    decreases |a|
  {
    if a == [] {
      assert a + b == b;
    } else {
      assert (a + b)[1..] == a[1..] + b;
      var e := Entry(a[0], rd);
      LastValueConcat(a[1..], b, key, rd, if e.Some? && e.value.key == key then e.value.value else d);
    }
  }

  predicate PlainKey(key: string) {
    key != "" && forall i :: 0 <= i < |key| ==> 'a' <= key[i] <= 'z' || key[i] == '_'
  }

  lemma {:induction false} IndexAfter(key: string, rest: string)
    requires PlainKey(key) || key == ""
    ensures Index(key + ("=" + rest), '=') == |key|
  {
    if key != "" {
      assert key[0] != '=' && (key + ("=" + rest))[1..] == key[1..] + ("=" + rest);
      IndexAfter(key[1..], rest);
    }
  }

  lemma TrimKey(key: string)
    requires PlainKey(key)
    ensures Trim(key) == key
  {
    assert !FlatJson.IsSpace(key[0]) && !FlatJson.IsSpace(key[|key| - 1]);
  }

  lemma EntryOfRow(key: string, v: string, rd: Reader)
    requires PlainKey(key)
    ensures Entry(key + ("=" + v), rd) == Some(Row(key, Seen(v, rd)))
  {
    var line := key + ("=" + v);
    IndexAfter(key, v);
    TrimKey(key);
    assert line[..|key|] == key && line[|key| + 1..] == v && line[0] == key[0];
  }

  /** A printed row and what it adds to the lines. */
  lemma LastInRow(r: Row, key: string, rd: Reader, d: string)
    requires PlainKey(r.key)
    ensures LastValue(RowLines(r), key, rd, d) ==
            LastValue(LaterLines(r.value), key, rd, if r.key == key then Seen(FirstLine(r.value), rd) else d)
  {
    EntryOfRow(r.key, FirstLine(r.value), rd);
    assert RowLines(r)[1..] == LaterLines(r.value);
  }

  // ---- what is read back ----

  lemma NoLater(v: string)
    ensures NoNewline(v) <==> FirstLine(v) == v
    ensures NoNewline(v) ==> LaterLines(v) == []
  {
    NewlineFirst(v, 0);
    assert v[0..NewlineAt(v, 0)] == v[..NewlineAt(v, 0)];
    if NoNewline(v) { NoLines(v, 0); }
  }

  lemma {:induction false} DecimalOneLine(n: nat)
    ensures NoNewline(Decimal(n))
  {
  }

  lemma IntOneLine(n: int)
    ensures NoNewline(IntText(n))
  {
    DecimalOneLine(if n < 0 then -n else n);
  }

  /** The lines that the id and the address add to the file. */
  function LooseLines(c: Config): seq<string> {
    LaterLines(c.boundId) + LaterLines(c.boundIp)
  }

  /** The id a reader finds: the last id line among the loose ones, else what follows the printed key. */
  function ReadId(c: Config, rd: Reader): string {
    LastValue(LooseLines(c), ID, rd, Seen(FirstLine(c.boundId), rd))
  }

  lemma KeysPlain()
    ensures PlainKey(ID) && PlainKey(IP) && PlainKey(PORT) && PlainKey(APPROVED)
    ensures ID != IP && ID != PORT && ID != APPROVED && APPROVED != IP && APPROVED != PORT
  {
  }

  /** A row of one line that has another key is passed over. */
  lemma OtherRow(r: Row, key: string, rd: Reader, d: string)
    requires PlainKey(r.key) && r.key != key && NoNewline(r.value)
    ensures LastValue(RowLines(r), key, rd, d) == d
  {
    LastInRow(r, key, rd, d);
    NoLater(r.value);
  }

  lemma FourRows(a: Row, b: Row, c: Row, d: Row)
    ensures AllLines([a, b, c, d]) == RowLines(a) + (RowLines(b) + (RowLines(c) + RowLines(d)))
  {
    assert [a, b, c, d][1..] == [b, c, d] && [b, c, d][1..] == [c, d] && [c, d][1..] == [d] && [d][1..] == [];
    assert AllLines([]) == [] && RowLines(d) + [] == RowLines(d);
    assert AllLines([d]) == RowLines(d);
    assert AllLines([c, d]) == RowLines(c) + RowLines(d);
  }

  lemma BindingId(c: Config, rd: Reader, d: string)
    ensures LastValue(AllLines(BindingRows(c)), ID, rd, d) == ReadId(c, rd)
  {
    var i, p, n, f := Row(ID, c.boundId), Row(IP, c.boundIp), Row(PORT, IntText(c.boundPort)), Row(APPROVED, FlagText(c.approved));
    KeysPlain();
    FourRows(i, p, n, f);
    LastValueConcat(RowLines(i), RowLines(p) + (RowLines(n) + RowLines(f)), ID, rd, d);
    var x := LastValue(RowLines(i), ID, rd, d);
    LastInRow(i, ID, rd, d);
    LastValueConcat(RowLines(p), RowLines(n) + RowLines(f), ID, rd, x);
    var y := LastValue(RowLines(p), ID, rd, x);
    LastInRow(p, ID, rd, x);
    LastValueConcat(RowLines(n), RowLines(f), ID, rd, y);
    IntOneLine(c.boundPort);
    OtherRow(n, ID, rd, y);
    OtherRow(f, ID, rd, y);
    LastValueConcat(LaterLines(c.boundId), LaterLines(c.boundIp), ID, rd, Seen(FirstLine(c.boundId), rd));
  }

  lemma FlagReads(b: bool)
    ensures Trim(FlagText(b)) == FlagText(b) == FirstLine(FlagText(b)) && LaterLines(FlagText(b)) == []
  {
    NoLater(FlagText(b));
  }

  lemma BindingFlag(c: Config, rd: Reader, d: string)
    ensures LastValue(AllLines(BindingRows(c)), APPROVED, rd, d) == FlagText(c.approved)
  {
    var i, p, n, f := Row(ID, c.boundId), Row(IP, c.boundIp), Row(PORT, IntText(c.boundPort)), Row(APPROVED, FlagText(c.approved));
    KeysPlain();
    FourRows(i, p, n, f);
    LastValueConcat(RowLines(i), RowLines(p) + (RowLines(n) + RowLines(f)), APPROVED, rd, d);
    var x := LastValue(RowLines(i), APPROVED, rd, d);
    LastValueConcat(RowLines(p), RowLines(n) + RowLines(f), APPROVED, rd, x);
    var y := LastValue(RowLines(p), APPROVED, rd, x);
    LastValueConcat(RowLines(n), RowLines(f), APPROVED, rd, y);
    LastInRow(f, APPROVED, rd, LastValue(RowLines(n), APPROVED, rd, y));
    FlagReads(c.approved);
  }

  /** For every configuration: what either reader finds as the id and as the flag. */
  lemma SavedBinding(c: Config, rd: Reader, d: string)
    ensures LastValue(FileLines(FileText(c)), ID, rd, d) == ReadId(c, rd)
    ensures LastValue(FileLines(FileText(c)), APPROVED, rd, d) == FlagText(c.approved)
  {
    var head := ["# ctforge agent config"] + AllLines(SettingRows(c));
    SavedLines(c);
    LastValueConcat(head, AllLines(BindingRows(c)), ID, rd, d);
    BindingId(c, rd, LastValue(head, ID, rd, d));
    LastValueConcat(head, AllLines(BindingRows(c)), APPROVED, rd, d);
    BindingFlag(c, rd, LastValue(head, APPROVED, rd, d));
  }

  // ---- the two readers ----

  function DigitCount(s: string): (n: nat)
    ensures n <= |s| && forall i :: 0 <= i < n ==> IsDigit(s[i])
  {
    if s != "" && IsDigit(s[0]) then 1 + DigitCount(s[1..]) else 0
  }

  /** `atoi` */
  function Atoi(s: string): int {
    var t := FlatJson.SkipSpace(s);
    var signed := t != "" && (t[0] == '-' || t[0] == '+');
    var d := if signed then t[1..] else t;
    var n: int := Number(d[..DigitCount(d)]);
    if signed && t[0] == '-' then -n else n
  }

  function FirstHost(v: string): string { v[..Index(v, ',')] }

  /** One setting of the file. */
  function WithSetting(c: Config, key: string, v: string): (r: Config)
    ensures r.boundId == c.boundId && r.boundIp == c.boundIp && r.boundPort == c.boundPort && r.approved == c.approved
    ensures r.host == c.host || r.host == FirstHost(v)
  {
    if key == "server_host" then c.(host := FirstHost(v))
    else if key == "server_port" then c.(port := Atoi(v))
    else if key == "agent_id" then c.(agentId := v)
    else if key == "name" then c.(name := v)
    else if key == "token" then c.(token := v)
    else if key == "metrics_interval" then c.(metricsInterval := Atoi(v))
    else if key == "heartbeat_interval" then c.(heartbeatInterval := Atoi(v))
    else if key == "log_level" then c.(logLevel := Atoi(v))
    else if key == "use_tls" then c.(useTls := Atoi(v))
    else if key == "tls_skip_verify" then c.(tlsSkipVerify := Atoi(v))
    else if key == "server_fingerprint" then c.(fingerprint := v)
    else if key == "discover_enable" then c.(discoverEnable := Atoi(v))
    else if key == "discover_port" then c.(discoverPort := Atoi(v))
    else c
  }

  /** One line's key and value. */
  function WithRow(c: Config, r: Row): Config {
    if r.key == ID then c.(boundId := r.value)
    else if r.key == IP then c.(boundIp := r.value)
    else if r.key == PORT then c.(boundPort := Atoi(r.value))
    else if r.key == APPROVED then c.(approved := Atoi(r.value) != 0)
    else WithSetting(c, r.key, r.value)
  }

  lemma RowBinding(c: Config, r: Row)
    ensures WithRow(c, r).boundId == if r.key == ID then r.value else c.boundId
    ensures WithRow(c, r).approved == if r.key == APPROVED then Atoi(r.value) != 0 else c.approved
  {
    KeysPlain();
  }

  function WithLine(c: Config, line: string): Config {
    var e := Entry(line, Trimming);
    if e.None? then c else WithRow(c, e.value)
  }

  function Loaded(c: Config, lines: seq<string>): Config
    decreases |lines|
  {
    if lines == [] then c else Loaded(WithLine(c, lines[0]), lines[1..])
  }

  datatype Binding = Binding(id: string, ip: string, port: int, approved: bool)

  function BindingWithLine(b: Binding, line: string): Binding {
    var e := Entry(line, Exact);
    if e.None? then b
    else if e.value.key == ID then b.(id := e.value.value)
    else if e.value.key == IP then b.(ip := e.value.value)
    else if e.value.key == PORT then b.(port := Atoi(e.value.value))
    else if e.value.key == APPROVED then b.(approved := Atoi(e.value.value) != 0)
    else b
  }

  function LoadedBinding(b: Binding, lines: seq<string>): Binding
    decreases |lines|
  {
    if lines == [] then b else LoadedBinding(BindingWithLine(b, lines[0]), lines[1..])
  }

  const UNBOUND: Binding := Binding("", "", 0, false)

  /** The configuration after a start: the file over the defaults, then the binding if it is approved. */
  function Reloaded(text: string, defaults: Config): Config {
    var c, b := Loaded(defaults, FileLines(text)), LoadedBinding(UNBOUND, FileLines(text));
    if b.approved && b.id != "" then c.(boundId := b.id, boundIp := b.ip, boundPort := b.port, approved := true) else c
  }

  /** `ctc_config_load` */
  method ConfigLoad(text: string, defaults: Config) returns (c: Config)
    ensures c == Loaded(defaults, FileLines(text))
  {
    var lines := FileLines(text);
    c := defaults;
    for i := 0 to |lines|
      invariant Loaded(c, lines[i..]) == Loaded(defaults, lines)
    {
      assert lines[i..][1..] == lines[i + 1..];
      c := WithLine(c, lines[i]);
    }
  }

  /** `ctc_binding_load` */
  method BindingLoad(text: string) returns (b: Binding)
    ensures b == LoadedBinding(UNBOUND, FileLines(text))
  {
    var lines := FileLines(text);
    b := UNBOUND;
    for i := 0 to |lines|
      invariant LoadedBinding(b, lines[i..]) == LoadedBinding(UNBOUND, lines)
    {
      assert lines[i..][1..] == lines[i + 1..];
      b := BindingWithLine(b, lines[i]);
    }
  }

  /** The start of the agent: `ctc_config_load`, then `ctc_binding_load`. */
  method Reload(text: string, defaults: Config) returns (c: Config)
    ensures c == Reloaded(text, defaults)
  {
    c := ConfigLoad(text, defaults);
    var b := BindingLoad(text);
    if b.approved && b.id != "" {
      c := c.(boundId := b.id, boundIp := b.ip, boundPort := b.port, approved := true);
    }
  }

  lemma {:induction false} LoadedId(c: Config, lines: seq<string>)
    ensures Loaded(c, lines).boundId == LastValue(lines, ID, Trimming, c.boundId)
    decreases |lines|
  {
    if lines != [] {
      var e := Entry(lines[0], Trimming);
      if e.Some? { RowBinding(c, e.value); }
      LoadedId(WithLine(c, lines[0]), lines[1..]);
    }
  }

  lemma {:induction false} LoadedFlag(c: Config, lines: seq<string>, d: string)
    requires c.approved <==> Atoi(d) != 0
    ensures Loaded(c, lines).approved <==> Atoi(LastValue(lines, APPROVED, Trimming, d)) != 0
    decreases |lines|
  {
    if lines != [] {
      var e := Entry(lines[0], Trimming);
      if e.Some? { RowBinding(c, e.value); }
      LoadedFlag(WithLine(c, lines[0]), lines[1..], if e.Some? && e.value.key == APPROVED then e.value.value else d);
    }
  }

  lemma {:induction false} LoadedBindingId(b: Binding, lines: seq<string>)
    ensures LoadedBinding(b, lines).id == LastValue(lines, ID, Exact, b.id)
    decreases |lines|
  {
    if lines != [] { LoadedBindingId(BindingWithLine(b, lines[0]), lines[1..]); }
  }

  lemma {:induction false} LoadedBindingFlag(b: Binding, lines: seq<string>, d: string)
    requires b.approved <==> Atoi(d) != 0
    ensures LoadedBinding(b, lines).approved <==> Atoi(LastValue(lines, APPROVED, Exact, d)) != 0
    decreases |lines|
  {
    if lines != [] {
      var e := Entry(lines[0], Exact);
      LoadedBindingFlag(BindingWithLine(b, lines[0]), lines[1..],
                        if e.Some? && e.value.key == APPROVED then e.value.value else d);
    }
  }

  lemma FlagValue(b: bool)
    ensures Atoi(FlagText(b)) != 0 <==> b
  {
    var s := FlagText(b);
    assert FlatJson.SkipSpace(s) == s && DigitCount(s) == 1 && s[..1] == s;
    assert s[..0] == "" && Number(s) == if b then 1 else 0;
  }

  // ---- when the held id is the one read back ----

  /** The id after a start from the file saved for `c`. */
  function ReadBackId(c: Config): string {
    if c.approved && ReadId(c, Exact) != "" then ReadId(c, Exact) else ReadId(c, Trimming)
  }

  /** For every configuration: flag and id after saving and starting again. */
  lemma ReloadedBinding(c: Config, defaults: Config)
    requires defaults.boundId == "" && !defaults.approved
    ensures var r := Reloaded(FileText(c), defaults);
            (r.approved <==> c.approved) && r.boundId == ReadBackId(c)
  {
    var lines := FileLines(FileText(c));
    FlagValue(false);
    FlagValue(c.approved);
    LoadedId(defaults, lines);
    LoadedFlag(defaults, lines, FlagText(false));
    LoadedBindingId(UNBOUND, lines);
    LoadedBindingFlag(UNBOUND, lines, FlagText(false));
    SavedBinding(c, Trimming, "");
    SavedBinding(c, Trimming, FlagText(false));
    SavedBinding(c, Exact, "");
    SavedBinding(c, Exact, FlagText(false));
  }

  /** The last id line that the address adds to the file, or else the held id, as a reader sees it. */
  function LastIdLine(c: Config, rd: Reader): string {
    LastValue(LaterLines(c.boundIp), ID, rd, Seen(c.boundId, rd))
  }

  /**
   The held id is one line, and the last id line is the held id: as it stands, for an approved
   agent, and trimmed otherwise.
   */
  predicate KeepsId(c: Config) {
    && NoNewline(c.boundId)
    && c.boundId == if c.approved && LastIdLine(c, Exact) != "" then LastIdLine(c, Exact) else LastIdLine(c, Trimming)
  }

  predicate OneLiners(lines: seq<string>) {
    forall i :: 0 <= i < |lines| ==> NoNewline(lines[i])
  }

  lemma {:induction false} LinesAreOneLiners(p: Parts)
    requires Proper(p)
    ensures OneLiners(LinesOf(p))
  {
    if p.Line? { LinesAreOneLiners(p.rest); }
  }

  lemma FileLinesOneLiners(text: string)
    ensures OneLiners(FileLines(text))
  {
    SplitProper(text, 0);
    LinesAreOneLiners(Split(text));
    TailHasNoNewline(Split(text));
  }

  lemma LaterOneLiners(v: string)
    ensures OneLiners(LaterLines(v)) && NoNewline(FirstLine(v))
  {
    var k := NewlineAt(v, 0);
    NewlineFirst(v, 0);
    assert v[0..k] == v[..k];
    if k < |v| {
      SplitProper(v[k + 1..] + "\n", 0);
      LinesAreOneLiners(Split(v[k + 1..] + "\n"));
    }
  }

  lemma {:induction false} SkipOneLine(s: string)
    requires NoNewline(s)
    ensures NoNewline(FlatJson.SkipSpace(s))
  {
    if s != "" { SkipOneLine(s[1..]); }
  }

  lemma {:induction false} TrimEndOneLine(s: string)
    requires NoNewline(s)
    ensures NoNewline(TrimEnd(s))
  {
    if s != "" { TrimEndOneLine(s[..|s| - 1]); }
  }

  lemma TrimOneLine(s: string)
    requires NoNewline(s)
    ensures NoNewline(Trim(s))
  {
    SkipOneLine(s);
    TrimEndOneLine(FlatJson.SkipSpace(s));
  }

  lemma EntryOneLine(line: string, rd: Reader)
    requires NoNewline(line)
    ensures Entry(line, rd).Some? ==> NoNewline(Entry(line, rd).value.value)
  {
    var eq := Index(line, '=');
    if eq < |line| { TrimOneLine(line[eq + 1..]); }
  }

  lemma {:induction false} LastValueOneLine(lines: seq<string>, key: string, rd: Reader, d: string)
    requires OneLiners(lines) && NoNewline(d)
    ensures NoNewline(LastValue(lines, key, rd, d))
    decreases |lines|
  {
    if lines != [] {
      var e := Entry(lines[0], rd);
      EntryOneLine(lines[0], rd);
      LastValueOneLine(lines[1..], key, rd, if e.Some? && e.value.key == key then e.value.value else d);
    }
  }

  lemma ReadIdOneLine(c: Config, rd: Reader)
    ensures NoNewline(ReadId(c, rd))
  {
    LaterOneLiners(c.boundId);
    LaterOneLiners(c.boundIp);
    TrimOneLine(FirstLine(c.boundId));
    LastValueOneLine(LooseLines(c), ID, rd, Seen(FirstLine(c.boundId), rd));
  }

  lemma LineOneLine(c: Config, line: string)
    requires NoNewline(line) && NoNewline(c.host) && NoNewline(c.boundIp)
    ensures NoNewline(WithLine(c, line).host) && NoNewline(WithLine(c, line).boundIp)
  {
    EntryOneLine(line, Trimming);
  }

  lemma {:induction false} LoadedOneLine(c: Config, lines: seq<string>)
    requires OneLiners(lines) && NoNewline(c.host) && NoNewline(c.boundIp)
    ensures NoNewline(Loaded(c, lines).host) && NoNewline(Loaded(c, lines).boundIp)
    decreases |lines|
  {
    if lines != [] {
      LineOneLine(c, lines[0]);
      LoadedOneLine(WithLine(c, lines[0]), lines[1..]);
    }
  }

  lemma {:induction false} LoadedBindingOneLine(b: Binding, lines: seq<string>)
    requires OneLiners(lines) && NoNewline(b.ip)
    ensures NoNewline(LoadedBinding(b, lines).ip)
    decreases |lines|
  {
    if lines != [] {
      EntryOneLine(lines[0], Exact);
      LoadedBindingOneLine(BindingWithLine(b, lines[0]), lines[1..]);
    }
  }

  /** Addresses read from a file are of one line. */
  lemma ReloadedOneLine(text: string, defaults: Config)
    requires NoNewline(defaults.host) && NoNewline(defaults.boundIp)
    ensures NoNewline(Reloaded(text, defaults).host) && NoNewline(Reloaded(text, defaults).boundIp)
  {
    FileLinesOneLiners(text);
    LoadedOneLine(defaults, FileLines(text));
    LoadedBindingOneLine(UNBOUND, FileLines(text));
  }

  /** Saving and starting again keeps the id exactly under that condition. */
  lemma KeepsIdExactly(c: Config)
    ensures ReadBackId(c) == c.boundId <==> KeepsId(c)
  {
    ReadIdOneLine(c, Exact);
    ReadIdOneLine(c, Trimming);
    NoLater(c.boundId);
    assert [] + LaterLines(c.boundIp) == LaterLines(c.boundIp);
  }

  /** With an address of one line, what matters is the id alone. */
  lemma OneLineAddress(c: Config)
    requires NoNewline(c.boundIp)
    ensures KeepsId(c) <==> NoNewline(c.boundId) && ((c.approved && c.boundId != "") || Trim(c.boundId) == c.boundId)
  {
    NoLater(c.boundIp);
  }

  lemma LaterOf(a: string, b: string)
    requires NoNewline(a) && NoNewline(b)
    ensures FirstLine(a + ("\n" + b)) == a && LaterLines(a + ("\n" + b)) == [b]
  {
    var v := a + ("\n" + b);
    NewlineAfter(a, b, 0);
    assert v[..|a|] == a && v[|a| + 1..] == b;
    SplitEnded(b);
  }

  /** An address whose second line is an id line replaces the id of an approved agent. */
  lemma AddressReplacesId(c: Config, a: string, id: string)
    requires c.approved && NoNewline(a) && NoNewline(id) && NoNewline(c.boundId) && id != ""
    requires c.boundIp == a + ("\n" + (ID + ("=" + id)))
    ensures ReadBackId(c) == id
  {
    KeysPlain();
    var line := ID + ("=" + id);
    BindingKeys(c);
    assert NoNewline(line);
    LaterOf(a, line);
    NoLater(c.boundId);
    OneIdLine(id, c.boundId);
    assert LooseLines(c) == [line];
  }

  lemma OneIdLine(id: string, d: string)
    ensures LastValue([ID + ("=" + id)], ID, Exact, d) == id
  {
    var line := ID + ("=" + id);
    KeysPlain();
    EntryOfRow(ID, id, Exact);
    assert [line][1..] == [];
    assert LastValue([], ID, Exact, id) == id;
  }

  // ---- how a line is read ----

  predicate Blank(s: string) { forall i :: 0 <= i < |s| ==> FlatJson.IsSpace(s[i]) }

  /** Nothing, or a text with no blank at either end. */
  predicate Bare(s: string) {
    s == "" || (!FlatJson.IsSpace(s[0]) && !FlatJson.IsSpace(s[|s| - 1]))
  }

  lemma {:induction false} TrimEndBlanks(core: string, post: string)
    requires Bare(core) && Blank(post)
    ensures TrimEnd(core + post) == core
    decreases |post|
  {
    var s := core + post;
    if post == "" {
      assert s == core;
    } else {
      var n := |post| - 1;
      TrimEndBlanks(core, post[..n]);
      assert s[|s| - 1] == post[n] && s[..|s| - 1] == core + post[..n];
    }
  }

  /** `trim` takes off the blanks at both ends and nothing else. */
  lemma TrimExact(pre: string, core: string, post: string)
    requires Blank(pre) && Bare(core) && Blank(post)
    ensures Trim(pre + (core + post)) == core
  {
    if core == "" {
      assert pre + (core + post) == pre + post;
      FlatJson.SkipAll(pre + post);
      assert TrimEnd("") == "";
    } else {
      FlatJson.SkipBlanks(pre, core + post);
      TrimEndBlanks(core, post);
    }
  }

  /** Only the first of several addresses is used. */
  lemma FirstOfHosts(a: string, rest: string)
    requires ',' !in a
    ensures FirstHost(a + ("," + rest)) == a
  {
    IndexOfComma(a, rest);
    assert (a + ("," + rest))[..|a|] == a;
  }

  lemma {:induction false} IndexOfComma(a: string, rest: string)
    requires ',' !in a
    ensures Index(a + ("," + rest), ',') == |a|
  {
    if a != "" {
      IndexOfComma(a[1..], rest);
      assert (a + ("," + rest))[1..] == a[1..] + ("," + rest);
    }
  }

  /** A comment says nothing; a semicolon starts one for the first reader only. */
  lemma Comments(line: string)
    ensures Entry("#" + line, Trimming) == None && Entry("#" + line, Exact) == None && Entry(";" + line, Trimming) == None
  {
  }
}
