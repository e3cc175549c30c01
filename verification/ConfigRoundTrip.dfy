/**
 Saving a configuration and starting again gives back every setting, if its texts are of one
 line, have no blanks at their ends, and the server address is a single one.
 */
module ConfigRoundTrip {
  import opened Json
  import opened Numbers
  import opened Lines
  import opened ConfigFile
  import FlatJson

  predicate Clean(s: string) { NoNewline(s) && Trim(s) == s }

  predicate CleanConfig(c: Config) {
    && Clean(c.host) && ',' !in c.host && Clean(c.agentId) && Clean(c.name) && Clean(c.token)
    && Clean(c.fingerprint) && Clean(c.boundId) && Clean(c.boundIp)
  }

  // ---- numbers ----

  lemma {:induction false} AllDigits(s: string)
    requires forall i :: 0 <= i < |s| ==> IsDigit(s[i])
    ensures DigitCount(s) == |s|
  {
    if s != "" { AllDigits(s[1..]); }
  }

  lemma DecimalReads(n: nat)
    ensures DigitCount(Decimal(n)) == |Decimal(n)| && Decimal(n)[..|Decimal(n)|] == Decimal(n)
    ensures !FlatJson.IsSpace(Decimal(n)[0]) && !FlatJson.IsSpace(Decimal(n)[|Decimal(n)| - 1])
    ensures Decimal(n)[0] != '-' && Decimal(n)[0] != '+'
  {
    AllDigits(Decimal(n));
    assert IsDigit(Decimal(n)[0]) && IsDigit(Decimal(n)[|Decimal(n)| - 1]);
  }

  /** A printed number is a clean text and reads back. */
  lemma IntReads(n: int)
    ensures Atoi(IntText(n)) == n && Clean(IntText(n))
  {
    var d := Decimal(if n < 0 then -n else n);
    DecimalReads(if n < 0 then -n else n);
    IntOneLine(n);
    if n < 0 {
      var s := "-" + d;
      assert s[0] == '-' && s[1..] == d && s[|s| - 1] == d[|d| - 1];
      assert FlatJson.SkipSpace(s) == s;
    } else {
      assert FlatJson.SkipSpace(d) == d;
    }
  }

  lemma FlagIsClean(b: bool)
    ensures Clean(FlagText(b)) && (Atoi(FlagText(b)) != 0 <==> b)
  {
    FlagReads(b);
    FlagValue(b);
  }

  // ---- rows ----

  predicate CleanRow(r: Row) { PlainKey(r.key) && Clean(r.value) }

  predicate CleanRows(rows: seq<Row>) {
    forall i :: 0 <= i < |rows| ==> CleanRow(rows[i])
  }

  function RowsLoaded(c: Config, rows: seq<Row>): Config
    decreases |rows|
  {
    if rows == [] then c else RowsLoaded(WithRow(c, rows[0]), rows[1..])
  }

  lemma {:induction false} LoadedConcat(c: Config, a: seq<string>, b: seq<string>)
    ensures Loaded(c, a + b) == Loaded(Loaded(c, a), b)
    decreases |a|
  {
    if a == [] {
      assert a + b == b;
    } else {
      assert (a + b)[1..] == a[1..] + b;
      LoadedConcat(WithLine(c, a[0]), a[1..], b);
    }
  }

  lemma CleanRowLoads(c: Config, r: Row)
    requires CleanRow(r)
    ensures Loaded(c, RowLines(r)) == WithRow(c, r)
  {
    NoLater(r.value);
    EntryOfRow(r.key, r.value, Trimming);
    var line := r.key + ("=" + r.value);
    assert RowLines(r) == [line] && [line][1..] == [];
    assert Loaded(WithLine(c, line), []) == WithLine(c, line);
  }

  lemma {:induction false} CleanRowsLoad(c: Config, rows: seq<Row>)
    requires CleanRows(rows)
    ensures Loaded(c, AllLines(rows)) == RowsLoaded(c, rows)
    decreases |rows|
  {
    if rows != [] {
      CleanRowLoads(c, rows[0]);
      LoadedConcat(c, RowLines(rows[0]), AllLines(rows[1..]));
      CleanRowsLoad(WithRow(c, rows[0]), rows[1..]);
    }
  }

  lemma {:induction false} RowsLoadedConcat(c: Config, a: seq<Row>, b: seq<Row>)
    ensures RowsLoaded(c, a + b) == RowsLoaded(RowsLoaded(c, a), b)
    decreases |a|
  {
    if a == [] {
      assert a + b == b;
    } else {
      assert (a + b)[1..] == a[1..] + b;
      RowsLoadedConcat(WithRow(c, a[0]), a[1..], b);
    }
  }

  lemma FourLoaded(c: Config, p: Row, q: Row, r: Row, s: Row)
    ensures RowsLoaded(c, [p, q, r, s]) == WithRow(WithRow(WithRow(WithRow(c, p), q), r), s)
  {
    assert [p, q, r, s][1..] == [q, r, s] && [q, r, s][1..] == [r, s] && [r, s][1..] == [s] && [s][1..] == [];
    var c1 := WithRow(c, p);
    var c2 := WithRow(c1, q);
    var c3 := WithRow(c2, r);
    assert RowsLoaded(c3, [s]) == WithRow(c3, s);
    assert RowsLoaded(c2, [r, s]) == WithRow(c3, s);
    assert RowsLoaded(c1, [q, r, s]) == WithRow(c3, s);
  }

  // ---- the groups of settings ----

  lemma HostAlone(host: string)
    requires ',' !in host
    ensures FirstHost(host) == host
  {
    IndexNone(host, ',');
    assert host[..|host|] == host;
  }

  lemma {:induction false} IndexNone(s: string, c: char)
    requires c !in s
    ensures Index(s, c) == |s|
  {
    if s != "" { IndexNone(s[1..], c); }
  }

  lemma ServerLoaded(d: Config, c: Config)
    requires CleanConfig(c)
    ensures RowsLoaded(d, ServerRows(c)) ==
            d.(host := c.host, port := c.port, agentId := c.agentId, name := c.name, token := c.token)
  {
    var r := ServerRows(c);
    IntReads(c.port);
    HostAlone(c.host);
    var first := [r[0], r[1], r[2], r[3]];
    assert r == first + [r[4]];
    RowsLoadedConcat(d, first, [r[4]]);
    FourLoaded(d, r[0], r[1], r[2], r[3]);
    var d' := RowsLoaded(d, first);
    assert [r[4]][1..] == [];
    assert RowsLoaded(d', [r[4]]) == WithRow(d', r[4]);
  }

  lemma SetsMetricsInterval(d: Config, v: string)
    ensures WithRow(d, Row("metrics_interval", v)) == d.(metricsInterval := Atoi(v))
  {
  }

  lemma SetsHeartbeatInterval(d: Config, v: string)
    ensures WithRow(d, Row("heartbeat_interval", v)) == d.(heartbeatInterval := Atoi(v))
  {
  }

  lemma SetsLogLevel(d: Config, v: string)
    ensures WithRow(d, Row("log_level", v)) == d.(logLevel := Atoi(v))
  {
  }

  lemma SetsUseTls(d: Config, v: string)
    ensures WithRow(d, Row("use_tls", v)) == d.(useTls := Atoi(v))
  {
  }

  lemma SetsTlsSkipVerify(d: Config, v: string)
    ensures WithRow(d, Row("tls_skip_verify", v)) == d.(tlsSkipVerify := Atoi(v))
  {
  }

  lemma SetsFingerprint(d: Config, v: string)
    ensures WithRow(d, Row("server_fingerprint", v)) == d.(fingerprint := v)
  {
  }

  lemma SetsDiscoverEnable(d: Config, v: string)
    ensures WithRow(d, Row("discover_enable", v)) == d.(discoverEnable := Atoi(v))
  {
  }

  lemma SetsDiscoverPort(d: Config, v: string)
    ensures WithRow(d, Row("discover_port", v)) == d.(discoverPort := Atoi(v))
  {
  }

  lemma ReportLoaded(d: Config, c: Config)
    ensures RowsLoaded(d, ReportRows(c)) ==
            d.(metricsInterval := c.metricsInterval, heartbeatInterval := c.heartbeatInterval,
               logLevel := c.logLevel, useTls := c.useTls)
  {
    var r := ReportRows(c);
    IntReads(c.metricsInterval);
    IntReads(c.heartbeatInterval);
    IntReads(c.logLevel);
    IntReads(c.useTls);
    var d1 := WithRow(d, r[0]);
    SetsMetricsInterval(d, r[0].value);
    var d2 := WithRow(d1, r[1]);
    SetsHeartbeatInterval(d1, r[1].value);
    var d3 := WithRow(d2, r[2]);
    SetsLogLevel(d2, r[2].value);
    var d4 := WithRow(d3, r[3]);
    SetsUseTls(d3, r[3].value);
    FourLoaded(d, r[0], r[1], r[2], r[3]);
  }

  lemma DiscoverLoaded(d: Config, c: Config)
    ensures RowsLoaded(d, DiscoverRows(c)) ==
            d.(tlsSkipVerify := c.tlsSkipVerify, fingerprint := c.fingerprint,
               discoverEnable := c.discoverEnable, discoverPort := c.discoverPort)
  {
    var r := DiscoverRows(c);
    IntReads(c.tlsSkipVerify);
    IntReads(c.discoverEnable);
    IntReads(c.discoverPort);
    var d1 := WithRow(d, r[0]);
    SetsTlsSkipVerify(d, r[0].value);
    var d2 := WithRow(d1, r[1]);
    SetsFingerprint(d1, r[1].value);
    var d3 := WithRow(d2, r[2]);
    SetsDiscoverEnable(d2, r[2].value);
    var d4 := WithRow(d3, r[3]);
    SetsDiscoverPort(d3, r[3].value);
    FourLoaded(d, r[0], r[1], r[2], r[3]);
  }

  lemma BindingRowsLoaded(d: Config, c: Config)
    ensures RowsLoaded(d, BindingRows(c)) ==
            d.(boundId := c.boundId, boundIp := c.boundIp, boundPort := c.boundPort, approved := c.approved)
  {
    var r := BindingRows(c);
    KeysPlain();
    IntReads(c.boundPort);
    FlagIsClean(c.approved);
    FourLoaded(d, r[0], r[1], r[2], r[3]);
  }

  lemma FourClean(p: Row, q: Row, r: Row, s: Row)
    requires CleanRow(p) && CleanRow(q) && CleanRow(r) && CleanRow(s)
    ensures CleanRows([p, q, r, s])
  {
  }

  lemma ServerPlain()
    ensures PlainKey("server_host") && PlainKey("server_port") && PlainKey("agent_id")
    ensures PlainKey("name") && PlainKey("token")
  {
  }

  lemma ReportPlain()
    ensures PlainKey("metrics_interval") && PlainKey("heartbeat_interval")
    ensures PlainKey("log_level") && PlainKey("use_tls")
  {
  }

  lemma DiscoverPlain()
    ensures PlainKey("tls_skip_verify") && PlainKey("server_fingerprint")
    ensures PlainKey("discover_enable") && PlainKey("discover_port")
  {
  }

  lemma ServerClean(c: Config)
    requires CleanConfig(c)
    ensures CleanRows(ServerRows(c))
  {
    var r := ServerRows(c);
    ServerPlain();
    IntReads(c.port);
    FourClean(r[0], r[1], r[2], r[3]);
    assert r == [r[0], r[1], r[2], r[3]] + [r[4]];
  }

  lemma ReportClean(c: Config)
    ensures CleanRows(ReportRows(c))
  {
    var r := ReportRows(c);
    ReportPlain();
    IntReads(c.metricsInterval);
    IntReads(c.heartbeatInterval);
    IntReads(c.logLevel);
    IntReads(c.useTls);
    FourClean(r[0], r[1], r[2], r[3]);
  }

  lemma DiscoverClean(c: Config)
    requires CleanConfig(c)
    ensures CleanRows(DiscoverRows(c))
  {
    var r := DiscoverRows(c);
    DiscoverPlain();
    IntReads(c.tlsSkipVerify);
    IntReads(c.discoverEnable);
    IntReads(c.discoverPort);
    FourClean(r[0], r[1], r[2], r[3]);
  }

  lemma BindingClean(c: Config)
    requires CleanConfig(c)
    ensures CleanRows(BindingRows(c))
  {
    var r := BindingRows(c);
    KeysPlain();
    IntReads(c.boundPort);
    FlagIsClean(c.approved);
    FourClean(r[0], r[1], r[2], r[3]);
  }

  lemma CleanConcat(a: seq<Row>, b: seq<Row>)
    requires CleanRows(a) && CleanRows(b)
    ensures CleanRows(a + b)
  {
  }

  // ---- the whole file ----

  lemma SettingsLoaded(d: Config, c: Config)
    requires CleanConfig(c)
    ensures Loaded(d, AllLines(SettingRows(c))) ==
            c.(boundId := d.boundId, boundIp := d.boundIp, boundPort := d.boundPort, approved := d.approved)
  {
    ServerClean(c);
    ReportClean(c);
    DiscoverClean(c);
    CleanConcat(ServerRows(c), ReportRows(c));
    CleanConcat(ServerRows(c) + ReportRows(c), DiscoverRows(c));
    CleanRowsLoad(d, SettingRows(c));
    RowsLoadedConcat(d, ServerRows(c) + ReportRows(c), DiscoverRows(c));
    RowsLoadedConcat(d, ServerRows(c), ReportRows(c));
    var d1 := RowsLoaded(d, ServerRows(c));
    ServerLoaded(d, c);
    var d2 := RowsLoaded(d1, ReportRows(c));
    ReportLoaded(d1, c);
    DiscoverLoaded(d2, c);
  }

  lemma CommentSkipped(d: Config)
    ensures Loaded(d, ["# ctforge agent config"]) == d
  {
    var line := "# ctforge agent config";
    var none: seq<string> := [];
    assert line[0] == '#' && [line][1..] == none;
    assert WithLine(d, line) == d && Loaded(d, none) == d;
  }

  lemma FileLoaded(d: Config, c: Config)
    requires CleanConfig(c)
    ensures Loaded(d, FileLines(FileText(c))) == c
  {
    var settings := AllLines(SettingRows(c));
    SavedLines(c);
    LoadedConcat(d, ["# ctforge agent config"] + settings, AllLines(BindingRows(c)));
    LoadedConcat(d, ["# ctforge agent config"], settings);
    CommentSkipped(d);
    SettingsLoaded(d, c);
    var d' := Loaded(d, settings);
    BindingClean(c);
    CleanRowsLoad(d', BindingRows(c));
    BindingRowsLoaded(d', c);
  }

  // ---- the binding, read a second time ----

  lemma {:induction false} BindingConcat(b: Binding, a: seq<string>, more: seq<string>)
    ensures LoadedBinding(b, a + more) == LoadedBinding(LoadedBinding(b, a), more)
    decreases |a|
  {
    if a == [] {
      assert a + more == more;
    } else {
      assert (a + more)[1..] == a[1..] + more;
      BindingConcat(BindingWithLine(b, a[0]), a[1..], more);
    }
  }

  lemma OneRowBinding(b: Binding, r: Row)
    requires CleanRow(r)
    ensures LoadedBinding(b, RowLines(r)) == BindingWithLine(b, r.key + ("=" + r.value))
    ensures Entry(r.key + ("=" + r.value), Exact) == Some(r)
  {
    NoLater(r.value);
    EntryOfRow(r.key, r.value, Exact);
    var line := r.key + ("=" + r.value);
    assert RowLines(r) == [line] && [line][1..] == [];
    assert LoadedBinding(BindingWithLine(b, line), []) == BindingWithLine(b, line);
  }

  lemma BindingRowsRead(b: Binding, c: Config)
    requires CleanConfig(c)
    ensures LoadedBinding(b, AllLines(BindingRows(c))) == Binding(c.boundId, c.boundIp, c.boundPort, c.approved)
  {
    var r := BindingRows(c);
    KeysPlain();
    BindingClean(c);
    IntReads(c.boundPort);
    FlagIsClean(c.approved);
    FourRows(r[0], r[1], r[2], r[3]);
    var l0, l1, l2, l3 := RowLines(r[0]), RowLines(r[1]), RowLines(r[2]), RowLines(r[3]);
    BindingConcat(b, l0, l1 + (l2 + l3));
    var b1 := LoadedBinding(b, l0);
    OneRowBinding(b, r[0]);
    BindingConcat(b1, l1, l2 + l3);
    var b2 := LoadedBinding(b1, l1);
    OneRowBinding(b1, r[1]);
    BindingConcat(b2, l2, l3);
    var b3 := LoadedBinding(b2, l2);
    OneRowBinding(b2, r[2]);
    OneRowBinding(b3, r[3]);
  }

  /** Saving a clean configuration and starting again gives it back, whatever the defaults. */
  lemma RoundTrip(c: Config, defaults: Config)
    requires CleanConfig(c)
    ensures Reloaded(FileText(c), defaults) == c
  {
    var lines := FileLines(FileText(c));
    FileLoaded(defaults, c);
    SavedLines(c);
    var head := ["# ctforge agent config"] + AllLines(SettingRows(c));
    BindingConcat(UNBOUND, head, AllLines(BindingRows(c)));
    BindingRowsRead(LoadedBinding(UNBOUND, head), c);
  }
}
