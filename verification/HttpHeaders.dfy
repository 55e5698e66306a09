/** The forwarding of requests by the HTTP proxy (HTTP Proxy Server/epollproxyserver.c, `forward_http_request` and
    its call sites), against sections 5.4 and 6.1 of RFC 7230. The buffer's text ends at its terminator. */
module HttpHeaders {
  import opened Options
  import opened Texts

  const CRLF := "\r\n"
  const BUF_SIZE: nat := 16384

  // ---------- scanning ----------

  predicate AtCrlf(s: string, i: nat) {
    i + 1 < |s| && s[i] == '\r' && s[i + 1] == '\n'
  }

  /** `strstr` for the end of a line. */
  function LineEnd(s: string, i: nat): (r: Option<nat>)
    ensures r.Some? ==> i <= r.value && r.value + 1 < |s|
    decreases |s| - i
  {
    if i >= |s| then None else if AtCrlf(s, i) then Some(i) else LineEnd(s, i + 1)
  }

  lemma {:induction false} LineEndFirst(s: string, i: nat)
    ensures LineEnd(s, i).Some? ==> AtCrlf(s, LineEnd(s, i).value)
    ensures LineEnd(s, i).Some? ==> forall k | i <= k < LineEnd(s, i).value :: !AtCrlf(s, k)
    decreases |s| - i
  {
    if i < |s| && !AtCrlf(s, i) {
      LineEndFirst(s, i + 1);
    }
  }

  /** `strncasecmp` against a name, at `i`. */
  predicate NameAt(s: string, i: nat, name: string) {
    i + |name| <= |s| && forall k | 0 <= k < |name| :: ToLower(s[i + k]) == ToLower(name[k])
  }

  const PROXY := "Proxy-Connection:"
  const CONNECTION := "Connection:"
  const HOST := "Host:"
  const CLOSE := "Connection: close"

  /** The comparison asks whether the text there is the name up to the case of letters. */
  lemma NameAtIs(s: string, i: nat, name: string)
    ensures NameAt(s, i, name) <==> i + |name| <= |s| && SameText(s[i..i + |name|], name)
  {
    if i + |name| <= |s| {
      forall k | 0 <= k < |name|
        ensures ToLower(s[i + k]) == ToLower(name[k]) <==> SameLetter(s[i..i + |name|][k], name[k])
      {
        LowerSame(s[i + k], name[k]);
      }
      hide ToLower, SameLetter;
    }
  }

  // ---------- header blocks ----------

  /** The lines from `i` on, up to an empty line, an unfinished line or the end. */
  function HeaderLines(s: string, i: nat): seq<string>
    decreases |s| - i
  {
    if i >= |s| || AtCrlf(s, i) then []
    else match LineEnd(s, i)
      case None => []
      case Some(end) => [s[i..end]] + HeaderLines(s, end + 2)
  }

  /** Where the loop over the lines stops, when it begins at `i`. */
  function Stop(s: string, i: nat): nat
    decreases |s| - i
  {
    if i >= |s| || AtCrlf(s, i) then i
    else match LineEnd(s, i)
      case None => i
      case Some(end) => Stop(s, end + 2)
  }

  /** What follows the empty line that ends the header of a message. */
  function Body(s: string): string {
    match LineEnd(s, 0)
    case None => ""
    case Some(end) =>
      var stop := Stop(s, end + 2);
      if AtCrlf(s, stop) then s[stop + 2..] else ""
  }

  /** A line as the buffer can hold it: not empty, and its end is the first CRLF. */
  ghost predicate IsLine(l: string) {
    l != "" && LineEnd(l + CRLF, 0) == Some(|l|)
  }

  function Block(lines: seq<string>): string {
    if lines == [] then "" else lines[0] + CRLF + Block(lines[1..])
  }

  predicate Dropped(l: string) {
    NameAt(l, 0, PROXY) || NameAt(l, 0, CONNECTION)
  }

  predicate IsHost(l: string) {
    NameAt(l, 0, HOST)
  }

  function Keep(lines: seq<string>): seq<string> {
    if lines == [] then []
    else (if Dropped(lines[0]) then [] else [lines[0]]) + Keep(lines[1..])
  }

  predicate HasHost(lines: seq<string>) {
    exists i | 0 <= i < |lines| :: IsHost(lines[i])
  }

  /** A line is dropped if its name is one of the two, in letters of either case. */
  lemma DroppedIs(l: string)
    ensures Dropped(l) <==>
      || (|l| >= 17 && SameText(l[..17], "Proxy-Connection:"))
      || (|l| >= 11 && SameText(l[..11], "Connection:"))
    ensures IsHost(l) <==> |l| >= 5 && SameText(l[..5], "Host:")
  {
    NameAtIs(l, 0, PROXY);
    NameAtIs(l, 0, CONNECTION);
    NameAtIs(l, 0, HOST);
    hide SameText, NameAt;
  }

  /** So the case of a line's letters does not matter. */
  lemma CaseIgnored(l: string, m: string)
    requires SameText(l, m)
    ensures Dropped(l) <==> Dropped(m)
    ensures IsHost(l) <==> IsHost(m)
  {
    NameAtSame(l, m, PROXY);
    NameAtSame(l, m, CONNECTION);
    NameAtSame(l, m, HOST);
    hide NameAt, SameText;
  }

  lemma NameAtSame(l: string, m: string, name: string)
    requires SameText(l, m)
    ensures NameAt(l, 0, name) <==> NameAt(m, 0, name)
  {
    forall k | 0 <= k < |l| ensures ToLower(l[k]) == ToLower(m[k]) {
      LowerSame(l[k], m[k]);
    }
    hide ToLower, SameLetter;
  }

  // ---------- the request ----------

  /** The parsed request; an absent path is sent as "/". */
  datatype Request = Request(verb: string, path: Option<string>, version: string, host: string)

  function RequestLine(req: Request): string {
    req.verb + " " + (if req.path.Some? then req.path.value else "/") + " " + req.version
  }

  /** The target as it came, or the root. */
  lemma RequestLineIs(verb: string, path: string, version: string, host: string)
    ensures RequestLine(Request(verb, Some(path), version, host)) == verb + " " + path + " " + version
    ensures RequestLine(Request(verb, None, version, host)) == verb + " " + "/" + " " + version
  {
  }

  function Rewritten(req: Request, lines: seq<string>): seq<string> {
    Keep(lines) + (if HasHost(Keep(lines)) then [] else [HOST + " " + req.host]) + [CLOSE]
  }

  /** The request line, the header lines and the empty line. */
  function Message(req: Request, lines: seq<string>): string {
    RequestLine(req) + CRLF + (Block(lines) + CRLF)
  }

  /** What is sent: nothing if the buffer holds no complete line. */
  function Forward(req: Request, buf: string): Option<string> {
    match LineEnd(buf, 0)
    case None => None
    case Some(end) => Some(Message(req, Rewritten(req, HeaderLines(buf, end + 2))))
  }

  // ---------- lines and blocks ----------

  /** Nothing in front of a position matters to the scan. */
  lemma {:induction false} LineEndShift(a: string, s: string, i: nat)
    ensures LineEnd(a + s, |a| + i)
         == match LineEnd(s, i) case None => None case Some(k) => Some(|a| + k)
    decreases |s| - i
  {
    if i < |s| {
      assert AtCrlf(a + s, |a| + i) <==> AtCrlf(s, i);
      LineEndShift(a, s, i + 1);
    }
  }

  lemma CrlfShift(a: string, s: string, i: nat)
    ensures AtCrlf(a + s, |a| + i) <==> AtCrlf(s, i)
  {
  }

  lemma SliceShift(a: string, s: string, i: nat, j: nat)
    requires i <= j <= |s|
    ensures (a + s)[|a| + i..|a| + j] == s[i..j]
  {
  }

  lemma HeaderLinesStep(s: string, i: nat, end: nat)
    requires i < |s| && !AtCrlf(s, i) && LineEnd(s, i) == Some(end)
    ensures i <= end <= |s| && HeaderLines(s, i) == [s[i..end]] + HeaderLines(s, end + 2)
  {
  }

  lemma {:induction false} HeaderLinesShift(a: string, s: string, i: nat)
    ensures HeaderLines(a + s, |a| + i) == HeaderLines(s, i)
    decreases |s| - i
  {
    LineEndShift(a, s, i);
    CrlfShift(a, s, i);
    if i < |s| && !AtCrlf(s, i) && LineEnd(s, i).Some? {
      hide LineEnd, AtCrlf, HeaderLines;
      var end := LineEnd(s, i).value;
      HeaderLinesShift(a, s, end + 2);
      SliceShift(a, s, i, end);
      HeaderLinesStep(s, i, end);
      HeaderLinesStep(a + s, |a| + i, |a| + end);
      assert |a| + (end + 2) == (|a| + end) + 2;
    }
  }

  lemma {:induction false} StopShift(a: string, s: string, i: nat)
    ensures Stop(a + s, |a| + i) == |a| + Stop(s, i)
    decreases |s| - i
  {
    LineEndShift(a, s, i);
    CrlfShift(a, s, i);
    if i < |s| && !AtCrlf(s, i) && LineEnd(s, i).Some? {
      hide LineEnd, AtCrlf;
      StopShift(a, s, LineEnd(s, i).value + 2);
    }
  }

  /** A line's end is found whatever follows it. */
  lemma LineEndAppend(l: string, rest: string)
    requires LineEnd(l + CRLF, 0) == Some(|l|)
    ensures LineEnd(l + CRLF + rest, 0) == Some(|l|)
  {
    LineEndFirst(l + CRLF, 0);
    FirstCrlf(l + CRLF + rest, 0, |l|) by {
      forall k | 0 <= k < |l| ensures !AtCrlf(l + CRLF + rest, k) {
        assert !AtCrlf(l + CRLF, k);
      }
    }
  }

  lemma {:induction false} FirstCrlf(s: string, i: nat, k: nat)
    requires i <= k && AtCrlf(s, k) && forall j | i <= j < k :: !AtCrlf(s, j)
    ensures LineEnd(s, i) == Some(k)
    decreases k - i
  {
    if i < k {
      FirstCrlf(s, i + 1, k);
    }
  }

  /** A block with its empty line is read back, line by line. */
  lemma {:induction false} BlockReadsBack(lines: seq<string>, rest: string)
    requires forall i | 0 <= i < |lines| :: IsLine(lines[i])
    ensures HeaderLines(Block(lines) + CRLF + rest, 0) == lines
  {
    var s := Block(lines) + CRLF + rest;
    if lines == [] {
      assert AtCrlf(s, 0);
    } else {
      var l, more := lines[0], Block(lines[1..]) + CRLF + rest;
      assert s == l + CRLF + more;
      LineEndAppend(l, more);
      assert !AtCrlf(s, 0);
      BlockReadsBack(lines[1..], rest);
      HeaderLinesShift(l + CRLF, more, 0);
      assert s[0..|l|] == l;
      assert lines == [l] + lines[1..];
    }
  }

  /** And the loop stops at the empty line. */
  lemma {:induction false} BlockStops(lines: seq<string>, rest: string)
    requires forall i | 0 <= i < |lines| :: IsLine(lines[i])
    ensures Stop(Block(lines) + CRLF + rest, 0) == |Block(lines)|
    ensures AtCrlf(Block(lines) + CRLF + rest, |Block(lines)|)
  {
    var s := Block(lines) + CRLF + rest;
    if lines == [] {
      assert AtCrlf(s, 0);
    } else {
      var l, more := lines[0], Block(lines[1..]) + CRLF + rest;
      assert s == l + CRLF + more;
      LineEndAppend(l, more);
      assert !AtCrlf(s, 0);
      BlockStops(lines[1..], rest);
      StopShift(l + CRLF, more, 0);
      CrlfShift(l + CRLF, more, |Block(lines[1..])|);
    }
  }

  /** What is read from a buffer are lines. */
  lemma {:induction false} ReadLines(s: string, i: nat)
    ensures forall k | 0 <= k < |HeaderLines(s, i)| :: IsLine(HeaderLines(s, i)[k])
    decreases |s| - i
  {
    if i < |s| && !AtCrlf(s, i) && LineEnd(s, i).Some? {
      var end := LineEnd(s, i).value;
      ReadLines(s, end + 2);
      LineEndFirst(s, i);
      var l := s[i..end];
      FirstCrlf(l + CRLF, 0, |l|) by {
        forall k | 0 <= k < |l| ensures !AtCrlf(l + CRLF, k) {
          assert !AtCrlf(s, i + k);
          assert (l + CRLF)[k] == s[i + k] && (l + CRLF)[k + 1] == s[i + k + 1];
        }
      }
    }
  }

  lemma {:induction false} KeepOk(lines: seq<string>)
    ensures forall k | 0 <= k < |Keep(lines)| :: Keep(lines)[k] in lines && !Dropped(Keep(lines)[k])
    ensures forall l | l in lines && !Dropped(l) :: l in Keep(lines)
  {
    if lines != [] {
      KeepOk(lines[1..]);
    }
  }

  /** The places of the lines that are kept, from left to right. */
  function Places(lines: seq<string>): seq<nat> {
    if lines == [] then []
    else
      var front := lines[..|lines| - 1];
      Places(front) + if Dropped(lines[|lines| - 1]) then [] else [|front|]
  }

  lemma KeepLast(lines: seq<string>, l: string)
    ensures Keep(lines + [l]) == Keep(lines) + if Dropped(l) then [] else [l]
  {
    KeepConcat(lines, [l]);
    assert [l][1..] == [];
  }

  /** The places are those of the lines not dropped, each once, in order. */
  lemma {:induction false} PlacesOk(lines: seq<string>)
    ensures var at := Places(lines);
      && (forall k | 0 <= k < |at| :: at[k] < |lines|)
      && (forall j, k | 0 <= j < k < |at| :: at[j] < at[k])
      && (forall i | 0 <= i < |lines| :: !Dropped(lines[i]) <==> i in at)
  {
    if lines != [] {
      hide Dropped;
      var front, l := lines[..|lines| - 1], lines[|lines| - 1];
      PlacesOk(front);
      forall i | 0 <= i < |front| ensures lines[i] == front[i] {
      }
      var before, at := Places(front), Places(lines);
      assert at == before + if Dropped(l) then [] else [|front|];
      hide Places;
      forall i | 0 <= i < |lines| ensures !Dropped(lines[i]) <==> i in at {
        assert i in at <==> i in before || (!Dropped(l) && i == |front|);
      }
    }
  }

  /** The kept lines are the lines at these places, in this order. */
  lemma {:induction false} KeepInOrder(lines: seq<string>)
    ensures |Keep(lines)| == |Places(lines)|
    ensures forall k | 0 <= k < |Keep(lines)| :: Places(lines)[k] < |lines| && Keep(lines)[k] == lines[Places(lines)[k]]
  {
    if lines != [] {
      hide Dropped;
      var front, l := lines[..|lines| - 1], lines[|lines| - 1];
      KeepInOrder(front);
      KeepLast(front, l);
      assert lines == front + [l];
      hide Keep;
    }
  }

  lemma {:induction false} KeepAll(lines: seq<string>)
    requires forall k | 0 <= k < |lines| :: !Dropped(lines[k])
    ensures Keep(lines) == lines
  {
    if lines != [] {
      KeepAll(lines[1..]);
    }
  }

  lemma {:induction false} KeepConcat(a: seq<string>, b: seq<string>)
    ensures Keep(a + b) == Keep(a) + Keep(b)
  {
    if a == [] {
      assert a + b == b;
    } else {
      assert (a + b)[1..] == a[1..] + b;
      KeepConcat(a[1..], b);
    }
  }

  // ---------- what is sent ----------

  /** The parsed request holds no CRLF, as it was taken from one line. */
  ghost predicate RequestOk(req: Request) {
    && LineEnd(RequestLine(req) + CRLF, 0) == Some(|RequestLine(req)|)
    && LineEnd(HOST + " " + req.host + CRLF, 0) == Some(|HOST + " " + req.host|)
  }

  lemma HostLine(req: Request)
    ensures IsHost(HOST + " " + req.host) && !Dropped(HOST + " " + req.host)
  {
    var l := HOST + " " + req.host;
    assert l[0] == 'H';
    assert forall k | 0 <= k < |HOST| :: l[k] == HOST[k];
    assert ToLower(PROXY[0]) == 'p' && ToLower(CONNECTION[0]) == 'c' && ToLower('H') == 'h';
    NotNamed(l, PROXY);
    NotNamed(l, CONNECTION);
  }

  lemma NotNamed(l: string, name: string)
    requires l != "" && name != "" && ToLower(l[0]) != ToLower(name[0])
    ensures !NameAt(l, 0, name)
  {
    NameCovers(l, 0, name, 0);
  }

  lemma NameCovers(s: string, i: nat, name: string, k: nat)
    requires k < |name|
    ensures NameAt(s, i, name) ==> i + k < |s| && ToLower(s[i + k]) == ToLower(name[k])
  {
  }

  lemma CloseLine()
    ensures IsLine(CLOSE) && NameAt(CLOSE, 0, CONNECTION) && !NameAt(CLOSE, 0, PROXY)
  {
    NotNamed(CLOSE, PROXY);
    FirstCrlf(CLOSE + CRLF, 0, |CLOSE|);
  }

  /** All lines that are sent are lines. */
  lemma RewrittenLines(req: Request, read: seq<string>)
    requires RequestOk(req) && forall i | 0 <= i < |read| :: IsLine(read[i])
    ensures forall i | 0 <= i < |Rewritten(req, read)| :: IsLine(Rewritten(req, read)[i])
  {
    var lines := Rewritten(req, read);
    KeepOk(read);
    CloseLine();
    assert IsLine(HOST + " " + req.host);
    hide IsLine, Keep, HasHost, Dropped;
    forall i | 0 <= i < |lines| ensures IsLine(lines[i]) {
      if i < |Keep(read)| { assert lines[i] == Keep(read)[i]; }
    }
  }

  /** The lines of a text that starts with a line and goes on with a block. */
  lemma BlockBehindLine(first: string, lines: seq<string>)
    requires LineEnd(first + CRLF, 0) == Some(|first|)
    requires forall i | 0 <= i < |lines| :: IsLine(lines[i])
    ensures var out := first + CRLF + (Block(lines) + CRLF);
      && LineEnd(out, 0) == Some(|first|) && HeaderLines(out, |first| + 2) == lines
      && AtCrlf(out, Stop(out, |first| + 2)) && Body(out) == ""
  {
    var rest := Block(lines) + CRLF;
    LineEndAppend(first, rest);
    BlockReadsBack(lines, "");
    BlockStops(lines, "");
    assert rest + "" == rest;
    HeaderLinesShift(first + CRLF, rest, 0);
    StopShift(first + CRLF, rest, 0);
    hide *;
    EmptyBehind(first, Block(lines));
  }

  lemma EmptyBehind(first: string, block: string)
    requires var out := first + CRLF + (block + CRLF);
      LineEnd(out, 0) == Some(|first|) && Stop(out, |first + CRLF|) == |first + CRLF| + |block|
    ensures |first + CRLF| == |first| + 2 && Body(first + CRLF + (block + CRLF)) == ""
    ensures var out := first + CRLF + (block + CRLF); AtCrlf(out, Stop(out, |first| + 2))
  {
    var out := first + CRLF + (block + CRLF);
    hide LineEnd, Stop;
    assert out == first + CRLF + block + CRLF;
    CrlfShift(first + CRLF + block, CRLF, 0);
    BodyIs(out, |first|);
  }

  lemma ForwardIs(req: Request, buf: string, end: nat)
    requires LineEnd(buf, 0) == Some(end)
    ensures Forward(req, buf) == Some(Message(req, Rewritten(req, HeaderLines(buf, end + 2))))
  {
    hide LineEnd, HeaderLines, Rewritten, Message;
  }

  /** A message that is written is read back. */
  lemma MessageReadsBack(req: Request, lines: seq<string>)
    requires RequestOk(req) && forall i | 0 <= i < |lines| :: IsLine(lines[i])
    ensures var out, n := Message(req, lines), |RequestLine(req)|;
      LineEnd(out, 0) == Some(n) && HeaderLines(out, n + 2) == lines && AtCrlf(out, Stop(out, n + 2)) && Body(out) == ""
  {
    hide *;
    FirstLine(req);
    MessageText(req, lines);
    BlockBehindLine(RequestLine(req), lines);
  }

  /** The lines that are sent are the ones kept, in order, then the request's host if there was none, then the
      closing one; there is nothing behind them. */
  lemma SentLines(req: Request, buf: string, end: nat)
    requires RequestOk(req) && LineEnd(buf, 0) == Some(end)
    ensures Forward(req, buf).Some?
    ensures var out := Forward(req, buf).value;
      && LineEnd(out, 0) == Some(|RequestLine(req)|)
      && HeaderLines(out, |RequestLine(req)| + 2) == Rewritten(req, HeaderLines(buf, end + 2))
      && AtCrlf(out, Stop(out, |RequestLine(req)| + 2)) && Body(out) == ""
  {
    hide *;
    var read := HeaderLines(buf, end + 2);
    ReadLines(buf, end + 2);
    RewrittenLines(req, read);
    ForwardIs(req, buf, end);
    MessageReadsBack(req, Rewritten(req, read));
  }

  lemma FirstLine(req: Request)
    requires RequestOk(req)
    ensures LineEnd(RequestLine(req) + CRLF, 0) == Some(|RequestLine(req)|)
  {
  }

  lemma MessageText(req: Request, lines: seq<string>)
    ensures Message(req, lines) == RequestLine(req) + CRLF + (Block(lines) + CRLF)
  {
  }

  /** Every sent block names a host (section 5.4), has the one `Connection` line `close` at its end, and no
      `Proxy-Connection` line. */
  lemma SentConnection(req: Request, lines: seq<string>)
    ensures var sent := Rewritten(req, lines);
      && HasHost(sent)
      && sent[|sent| - 1] == "Connection: close"
      && (!HasHost(Keep(lines)) ==> |sent| > 1 && sent[|sent| - 2] == "Host: " + req.host)
      && forall i | 0 <= i < |sent| - 1 :: !NameAt(sent[i], 0, CONNECTION) && !NameAt(sent[i], 0, PROXY)
  {
    var sent := Rewritten(req, lines);
    var kept := Keep(lines);
    KeepOk(lines);
    HostLine(req);
    hide NameAt;
    if HasHost(kept) {
      var i :| 0 <= i < |kept| && IsHost(kept[i]);
      assert sent[i] == kept[i];
    } else {
      assert sent[|kept|] == HOST + " " + req.host;
      assert IsHost(sent[|kept|]);
    }
    forall i | 0 <= i < |sent| - 1 ensures !Dropped(sent[i]) {
      if i < |kept| { assert sent[i] == kept[i]; }
    }
  }

  /** Rewriting what was rewritten changes nothing. */
  lemma RewrittenTwice(req: Request, lines: seq<string>)
    ensures Rewritten(req, Rewritten(req, lines)) == Rewritten(req, lines)
  {
    var kept := Keep(lines);
    var host := if HasHost(kept) then [] else [HOST + " " + req.host];
    KeepOk(lines);
    HostLine(req);
    CloseLine();
    KeepConcat(kept + host, [CLOSE]);
    forall k | 0 <= k < |kept + host| ensures !Dropped((kept + host)[k]) {
      if k < |kept| { assert (kept + host)[k] == kept[k]; }
    }
    KeepAll(kept + host);
    assert Keep([CLOSE]) == [] by { assert Dropped([CLOSE][0]); assert [CLOSE][1..] == []; }
    hide NameAt;
    assert HasHost(kept + host) by {
      if HasHost(kept) {
        var i :| 0 <= i < |kept| && IsHost(kept[i]);
        assert (kept + host)[i] == kept[i];
      } else {
        assert (kept + host)[|kept|] == HOST + " " + req.host;
      }
    }
    assert Keep(Rewritten(req, lines)) == kept + host;
  }

  /** A second proxy of the same kind sends on, for the same parsed request, exactly what it received. */
  lemma ForwardTwice(req: Request, buf: string, end: nat)
    requires RequestOk(req) && LineEnd(buf, 0) == Some(end)
    ensures Forward(req, buf).Some? && Forward(req, Forward(req, buf).value) == Forward(req, buf)
  {
    hide *;
    var lines := HeaderLines(buf, end + 2);
    SentLines(req, buf, end);
    RewrittenTwice(req, lines);
    ForwardIs(req, buf, end);
    var out := Forward(req, buf).value;
    ForwardIs(req, out, |RequestLine(req)|);
  }

  // ---------- the body ----------

  lemma {:induction false} LineEndFixed(h: string, rest: string, i: nat)
    ensures LineEnd(h, i).Some? ==> LineEnd(h + rest, i) == LineEnd(h, i)
    decreases |h| - i
  {
    if i < |h| && LineEnd(h, i).Some? {
      assert AtCrlf(h + rest, i) <==> AtCrlf(h, i);
      LineEndFixed(h, rest, i + 1);
    }
  }

  /** Nothing behind the empty line matters to the loop. */
  lemma {:induction false} StopFixed(h: string, rest: string, i: nat)
    requires AtCrlf(h, Stop(h, i))
    ensures Stop(h + rest, i) == Stop(h, i) && HeaderLines(h + rest, i) == HeaderLines(h, i)
    decreases |h| - i
  {
    if AtCrlf(h, i) {
      assert AtCrlf(h + rest, i);
    } else {
      LineEndFixed(h, rest, i);
      NotAtEnd(h, rest, i);
      var end := LineEnd(h, i).value;
      hide LineEnd, AtCrlf;
      StopFixed(h, rest, end + 2);
      assert (h + rest)[i..end] == h[i..end];
    }
  }

  lemma NotAtEnd(h: string, rest: string, i: nat)
    requires AtCrlf(h, Stop(h, i)) && !AtCrlf(h, i)
    ensures i < |h| && LineEnd(h, i).Some? && !AtCrlf(h + rest, i)
  {
  }

  /** What is sent depends only on the text up to the empty line. */
  lemma ForwardIgnoresBody(req: Request, head: string, end: nat, rest: string)
    requires LineEnd(head, 0) == Some(end) && AtCrlf(head, Stop(head, end + 2))
    ensures Forward(req, head + rest) == Forward(req, head)
    ensures Body(head + rest) == Body(head) + rest
  {
    hide *;
    var stop := Stop(head, end + 2);
    CrlfFixed(head, rest, stop);
    LineEndFixed(head, rest, 0);
    StopFixed(head, rest, end + 2);
    ForwardIs(req, head, end);
    ForwardIs(req, head + rest, end);
    BodyIs(head, end);
    BodyIs(head + rest, end);
    DropFront(head, rest, stop + 2);
  }

  lemma CrlfFixed(h: string, rest: string, i: nat)
    requires AtCrlf(h, i)
    ensures i + 2 <= |h| && AtCrlf(h + rest, i)
  {
  }

  lemma DropFront(h: string, rest: string, i: nat)
    requires i <= |h|
    ensures (h + rest)[i..] == h[i..] + rest
  {
  }

  lemma BodyIs(s: string, end: nat)
    requires LineEnd(s, 0) == Some(end) && AtCrlf(s, Stop(s, end + 2))
    ensures Stop(s, end + 2) + 2 <= |s| && Body(s) == s[Stop(s, end + 2) + 2..]
  {
  }

  /** `strstr` for an empty line; the answer is the end of the line in front of it. */
  function HeaderEnd(s: string, i: nat): (r: Option<nat>)
    ensures r.Some? ==> i <= r.value && r.value + 4 <= |s|
    decreases |s| - i
  {
    if i >= |s| then None
    else if AtCrlf(s, i) && AtCrlf(s, i + 2) then Some(i)
    else HeaderEnd(s, i + 1)
  }

  /** What the callers of `forward_http_request` send behind it. */
  function Tail(s: string): string {
    match HeaderEnd(s, 0)
    case None => ""
    case Some(k) => s[k + 4..]
  }

  lemma {:induction false} HeaderEndSkips(s: string, i: nat, e: nat)
    requires i <= e && forall k | i <= k < e :: !AtCrlf(s, k)
    ensures HeaderEnd(s, i) == HeaderEnd(s, e)
    decreases e - i
  {
    if i < e {
      HeaderEndSkips(s, i + 1, e);
    }
  }

  lemma {:induction false} NoLineEnd(s: string, i: nat)
    requires LineEnd(s, i).None?
    ensures forall k | i <= k :: !AtCrlf(s, k)
    decreases |s| - i
  {
    if i < |s| {
      NoLineEnd(s, i + 1);
    }
  }

  /** The search for an empty line and the loop over the lines end at the same place. */
  lemma {:induction false} HeaderEndIsStop(s: string, p: nat)
    requires AtCrlf(s, p)
    ensures var stop := Stop(s, p + 2);
      if AtCrlf(s, stop) then HeaderEnd(s, p).Some? && HeaderEnd(s, p).value + 2 == stop else HeaderEnd(s, p).None?
    decreases |s| - p
  {
    if !AtCrlf(s, p + 2) {
      assert HeaderEnd(s, p) == HeaderEnd(s, p + 1) == HeaderEnd(s, p + 2);
      match LineEnd(s, p + 2)
      case None =>
        NoLineEnd(s, p + 2);
        HeaderEndSkips(s, p + 2, |s|);
      case Some(end) =>
        LineEndFirst(s, p + 2);
        HeaderEndSkips(s, p + 2, end);
        HeaderEndIsStop(s, end);
    }
  }

  /** What the callers find behind the header is the body. */
  lemma TailIsBody(s: string)
    ensures Tail(s) == Body(s)
  {
    match LineEnd(s, 0)
    case None =>
      NoLineEnd(s, 0);
      HeaderEndSkips(s, 0, |s|);
    case Some(end) =>
      LineEndFirst(s, 0);
      HeaderEndSkips(s, 0, end);
      HeaderEndIsStop(s, end);
  }

  /** What the server receives for the first chunk of a request: the rewritten header, and then what came with
      the chunk behind the empty line. */
  function Delivered(req: Request, buf: string): string {
    (if Forward(req, buf).Some? then Forward(req, buf).value else "") + Tail(buf)
  }

  /** The body arrives unchanged behind the rewritten header. */
  lemma BodyArrives(req: Request, buf: string, end: nat)
    requires RequestOk(req) && LineEnd(buf, 0) == Some(end)
    ensures var out := Delivered(req, buf);
      && LineEnd(out, 0) == Some(|RequestLine(req)|)
      && HeaderLines(out, |RequestLine(req)| + 2) == Rewritten(req, HeaderLines(buf, end + 2))
      && Body(out) == Body(buf)
  {
    hide *;
    var n := |RequestLine(req)|;
    SentLines(req, buf, end);
    var head := Forward(req, buf).value;
    TailIsBody(buf);
    LineEndFixed(head, Tail(buf), 0);
    StopFixed(head, Tail(buf), n + 2);
    ForwardIgnoresBody(req, head, n, Tail(buf));
    DeliveredIs(req, buf);
    assert "" + Tail(buf) == Tail(buf);
  }

  lemma DeliveredIs(req: Request, buf: string)
    requires Forward(req, buf).Some?
    ensures Delivered(req, buf) == Forward(req, buf).value + Tail(buf)
  {
    hide Forward, Tail;
  }

  /** The later chunks are relayed as they are, so wherever behind the empty line the first one ends, the server
      receives the same. */
  lemma ChunksArrive(req: Request, head: string, end: nat, more: string)
    requires LineEnd(head, 0) == Some(end) && AtCrlf(head, Stop(head, end + 2))
    ensures Delivered(req, head + more) == Delivered(req, head) + more
  {
    hide *;
    ForwardIgnoresBody(req, head, end, more);
    ForwardIs(req, head, end);
    TailIsBody(head);
    TailIsBody(head + more);
    DeliveredIs(req, head);
    DeliveredIs(req, head + more);
    var out, body := Forward(req, head).value, Tail(head);
    assert out + (body + more) == (out + body) + more;
  }

  /** A second proxy delivers, for the same parsed request, the very message that it received. */
  lemma DeliveredTwice(req: Request, buf: string, end: nat)
    requires RequestOk(req) && LineEnd(buf, 0) == Some(end)
    ensures Delivered(req, Delivered(req, buf)) == Delivered(req, buf)
  {
    hide *;
    SentLines(req, buf, end);
    ForwardTwice(req, buf, end);
    var head, n := Forward(req, buf).value, |RequestLine(req)|;
    ForwardIgnoresBody(req, head, n, Tail(buf));
    DeliveredIs(req, buf);
    DeliveredIs(req, head + Tail(buf));
    TailIsBody(head + Tail(buf));
    assert "" + Tail(buf) == Tail(buf);
  }

  /** A request for the root of the host `h` with a body of two characters, and what the server receives for it. */
  lemma RootRequest(req: Request, buf: string)
    requires req == Request("GET", None, "HTTP/1.1", "h")
    requires buf == "G" + "\r\n" + ("A: b" + "\r\n" + ("connection: x" + "\r\n" + "") + "\r\n") + "hi"
    ensures Delivered(req, buf)
         == "GET / HTTP/1.1" + "\r\n" + ("A: b" + "\r\n" + ("Host: h" + "\r\n" + ("Connection: close" + "\r\n" + ""))
            + "\r\n") + "hi"
  {
    RootLines();
    RootKept(req);
    assert RequestLine(req) == "GET / HTTP/1.1";
    assert CRLF == "\r\n";
    var lines := ["A: b", "connection: x"];
    hide *;
    BlockTwo("A: b", "connection: x");
    BlockThree("A: b", "Host: h", "Connection: close");
    BlockBehindLine("G", lines);
    var head := "G" + CRLF + (Block(lines) + CRLF);
    ForwardIs(req, head, 1);
    ForwardIgnoresBody(req, head, 1, "hi");
    MessageText(req, Rewritten(req, lines));
    TailIsBody(head + "hi");
    DeliveredIs(req, head + "hi");
    assert "" + "hi" == "hi";
  }

  lemma RootLines()
    ensures IsLine("A: b") && IsLine("connection: x") && |"G"| == 1 && LineEnd("G" + CRLF, 0) == Some(1)
  {
    FirstCrlf("A: b" + CRLF, 0, 4);
    FirstCrlf("connection: x" + CRLF, 0, 13);
    FirstCrlf("G" + CRLF, 0, 1);
  }

  lemma RootKept(req: Request)
    requires req.host == "h"
    ensures Rewritten(req, ["A: b", "connection: x"]) == ["A: b", "Host: h", "Connection: close"]
  {
    var lines := ["A: b", "connection: x"];
    NotNamed("A: b", PROXY);
    NotNamed("A: b", CONNECTION);
    NotNamed("A: b", HOST);
    ConnectionDropped();
    assert lines[1..] == ["connection: x"] && lines[1..][1..] == [];
    hide Dropped, IsHost;
    assert Keep(lines) == ["A: b"];
    assert HOST + " " + req.host == "Host: h";
  }

  lemma ConnectionDropped()
    ensures Dropped("connection: x") && !IsHost("A: b") && !Dropped("A: b")
  {
    var l := "connection: x";
    forall k | 0 <= k < 11 ensures ToLower(l[k]) == ToLower("Connection:"[k]) {
    }
    NotNamed("A: b", PROXY);
    NotNamed("A: b", CONNECTION);
    NotNamed("A: b", HOST);
  }

  lemma BlockTwo(a: string, b: string)
    ensures Block([a, b]) == a + CRLF + (b + CRLF + "")
  {
    assert [a, b][1..] == [b] && [b][1..] == [];
    assert Block([b]) == b + CRLF + Block([]);
    assert Block([a, b]) == a + CRLF + Block([b]);
  }

  lemma BlockThree(a: string, b: string, c: string)
    ensures Block([a, b, c]) == a + CRLF + (b + CRLF + (c + CRLF + ""))
  {
    assert [a, b, c][1..] == [b, c];
    BlockTwo(b, c);
  }

  // ---------- connection options ----------

  predicate IsBlank(c: char) {
    c == ' ' || c == '\t'
  }

  function Stripped(s: string): string {
    if s != "" && IsBlank(s[0]) then Stripped(s[1..])
    else if s != "" && IsBlank(s[|s| - 1]) then Stripped(s[..|s| - 1])
    else s
  }

  /** The parts of a comma-separated list. */
  function Parts(s: string): seq<string> {
    PartsAfter("", s)
  }

  function PartsAfter(part: string, s: string): seq<string>
    decreases |s|
  {
    if s == "" then [Stripped(part)]
    else if s[0] == ',' then [Stripped(part)] + PartsAfter("", s[1..])
    else PartsAfter(part + [s[0]], s[1..])
  }

  lemma PartsStep(part: string, s: string, longer: string, rest: string)
    requires s != "" && s[0] != ',' && longer == part + [s[0]] && rest == s[1..]
    ensures PartsAfter(part, s) == PartsAfter(longer, rest)
  {
  }

  /** The parts of a list are what stands between its commas, without the blanks around it. */
  lemma {:induction false} PartsLaw(front: string, a: string, b: string)
    requires ',' !in a
    ensures PartsAfter(front, a) == [Stripped(front + a)]
    ensures PartsAfter(front, a + "," + b) == [Stripped(front + a)] + Parts(b)
    decreases |a|
  {
    if a == "" {
      assert front + a == front && a + "," + b == "," + b && ("," + b)[1..] == b;
    } else {
      hide Stripped;
      var c, s := [a[0]], a[1..];
      assert a[0] in a && front + a == (front + c) + s;
      assert (a + "," + b)[0] == a[0] && (a + "," + b)[1..] == s + "," + b;
      PartsLaw(front + c, s, b);
    }
  }

  lemma {:induction false} StrippedLaw(front: string, t: string, back: string)
    requires forall i | 0 <= i < |front| :: front[i] == ' ' || front[i] == '\t'
    requires forall i | 0 <= i < |back| :: back[i] == ' ' || back[i] == '\t'
    requires t != "" && t[0] !in " \t" && t[|t| - 1] !in " \t"
    ensures Stripped(front + t + back) == t
    decreases |front| + |back|
  {
    var s := front + t + back;
    if front != "" {
      assert s[0] == front[0] && s[1..] == front[1..] + t + back;
      StrippedLaw(front[1..], t, back);
    } else if back != "" {
      assert s[0] == t[0] && s[|s| - 1] == back[|back| - 1];
      assert s[..|s| - 1] == front + t + back[..|back| - 1];
      StrippedLaw(front, t, back[..|back| - 1]);
    } else {
      assert s == t;
    }
  }

  /** The options that the Connection lines name (section 6.1 of RFC 7230). */
  function ConnectionOptions(lines: seq<string>): seq<string> {
    if lines == [] then []
    else if NameAt(lines[0], 0, CONNECTION) then Parts(lines[0][|CONNECTION|..]) + ConnectionOptions(lines[1..])
    else ConnectionOptions(lines[1..])
  }

  /** The line is a field that one of the options names. */
  predicate Named(l: string, options: seq<string>) {
    exists k | 0 <= k < |options| :: options[k] != "" && NameAt(l, 0, options[k] + ":")
  }

  /** The name and the colon behind it stand at the front, in letters of either case. */
  lemma NamedIs(l: string, option: string)
    ensures Named(l, [option]) <==> option != "" && |l| > |option| && SameText(l[..|option| + 1], option + ":")
  {
    NameAtIs(l, 0, option + ":");
    hide SameText, NameAt;
    assert [option][0] == option;
    if |l| > |option| {
      assert l[0..|option| + 1] == l[..|option| + 1];
    }
  }

  /** What section 6.1 asks of a proxy: the fields that the options name go, and the Connection lines. */
  function KeepUnnamed(lines: seq<string>, options: seq<string>): seq<string> {
    if lines == [] then []
    else (if Dropped(lines[0]) || Named(lines[0], options) then [] else [lines[0]]) + KeepUnnamed(lines[1..], options)
  }

  /** No line is a field so named, the Connection and Proxy-Connection lines apart. */
  ghost predicate NoneNamed(lines: seq<string>, options: seq<string>) {
    forall k | 0 <= k < |lines| :: Dropped(lines[k]) || !Named(lines[k], options)
  }

  lemma NoneNamedStep(l: string, rest: seq<string>, options: seq<string>)
    ensures NoneNamed([l] + rest, options) <==> (Dropped(l) || !Named(l, options)) && NoneNamed(rest, options)
  {
    hide Dropped, Named;
    var lines := [l] + rest;
    assert lines[0] == l;
    assert forall k | 0 <= k < |rest| :: rest[k] == lines[k + 1];
  }

  lemma {:induction false} KeepUnnamedExactly(lines: seq<string>, options: seq<string>)
    ensures |KeepUnnamed(lines, options)| <= |Keep(lines)|
    ensures KeepUnnamed(lines, options) == Keep(lines) <==> NoneNamed(lines, options)
  {
    if lines != [] {
      hide Dropped, Named, NoneNamed;
      var l, rest := lines[0], lines[1..];
      KeepUnnamedExactly(rest, options);
      NoneNamedStep(l, rest, options);
      assert lines == [l] + rest;
      var a, b := KeepUnnamed(rest, options), Keep(rest);
      assert ([l] + a)[1..] == a && ([l] + b)[1..] == b;
      assert [] + a == a && [] + b == b;
    } else {
      assert NoneNamed(lines, options);
    }
  }

  /** The received fields that are sent on are those section 6.1 asks for if and only if no line of the message,
      its Connection and Proxy-Connection lines apart, is a field that a Connection line names. */
  lemma OptionsExactly(lines: seq<string>)
    ensures Keep(lines) == KeepUnnamed(lines, ConnectionOptions(lines)) <==> NoneNamed(lines, ConnectionOptions(lines))
  {
    KeepUnnamedExactly(lines, ConnectionOptions(lines));
  }

  /** Among all lines sent there is no field so named if and only if, besides, the options name neither the
      Connection line nor, where the request has none of its own, the Host line that the proxy adds. */
  lemma SentUnnamedExactly(req: Request, lines: seq<string>)
    ensures var options := ConnectionOptions(lines);
      (forall k | 0 <= k < |Rewritten(req, lines)| :: !Named(Rewritten(req, lines)[k], options))
      <==>
      && NoneNamed(lines, options)
      && !Named(CLOSE, options)
      && (HasHost(Keep(lines)) || !Named(HOST + " " + req.host, options))
  {
    hide Named, ConnectionOptions, Dropped, HasHost;
    var options := ConnectionOptions(lines);
    var kept, sent := Keep(lines), Rewritten(req, lines);
    KeepOk(lines);
    assert forall k | 0 <= k < |kept| :: sent[k] == kept[k];
    assert sent[|sent| - 1] == CLOSE;
    if !HasHost(kept) { assert sent[|kept|] == HOST + " " + req.host; }
    forall k | 0 <= k < |lines| && !Dropped(lines[k]) ensures lines[k] in kept {
    }
    if forall k | 0 <= k < |sent| :: !Named(sent[k], options) {
      forall k | 0 <= k < |lines| && !Dropped(lines[k]) ensures !Named(lines[k], options) {
        var j :| 0 <= j < |kept| && kept[j] == lines[k];
        assert !Named(sent[j], options);
      }
    }
    forall k | 0 <= k < |kept| ensures exists j :: 0 <= j < |lines| && lines[j] == kept[k] && !Dropped(lines[j]) {
      assert kept[k] in lines;
    }
  }

  /** A field named by a Connection line, which is sent on. */
  lemma NamedFieldSent()
    ensures var lines := ["Connection: X-A", "X-A: 1"];
      Keep(lines) == ["X-A: 1"] && Named("X-A: 1", ConnectionOptions(lines)) &&
        KeepUnnamed(lines, ConnectionOptions(lines)) == []
  {
    var lines := ["Connection: X-A", "X-A: 1"];
    assert lines[1..] == ["X-A: 1"] && lines[1..][1..] == [];
    var value := " X-A";
    assert lines[0][|CONNECTION|..] == value;
    assert NameAt(lines[0], 0, CONNECTION);
    assert Parts(value) == ["X-A"] by {
      PartsStep("", " X-A", " ", "X-A");
      PartsStep(" ", "X-A", " X", "-A");
      PartsStep(" X", "-A", " X-", "A");
      PartsStep(" X-", "A", " X-A", "");
      assert " X-A"[1..] == "X-A";
      assert Stripped(" X-A") == Stripped("X-A") == "X-A";
    }
    NotNamed("X-A: 1", CONNECTION);
    NotNamed("X-A: 1", PROXY);
    assert ConnectionOptions(lines[1..]) == [];
    assert ConnectionOptions(lines) == ["X-A"];
    assert ConnectionOptions(lines)[0] + ":" == "X-A:" && NameAt("X-A: 1", 0, "X-A:");
  }

  // ---------- the buffer ----------

  /** `n` is the length of what has been written so far, and `out[..n]` is that text, unless it filled the
      buffer: then `snprintf` has cut it. */
  ghost predicate Wrote(out: array<char>, n: nat, text: string)
    reads out
  {
    n == |text| && (n < out.Length ==> forall k | 0 <= k < n :: out[k] == text[k])
  }

  /** `snprintf` at the end of what has been written: it writes what fits, with a terminator, and counts all. Behind
      the end of the buffer the size that it is given wraps around. */
  method Snprintf(out: array<char>, n: nat, text: string, ghost before: string) returns (m: nat, inside: bool)
    requires Wrote(out, n, before)
    modifies out
    ensures inside <==> n <= out.Length
    ensures inside ==> Wrote(out, m, before + text)
  {
    m, inside := n + |text|, n <= out.Length;
    if n < out.Length {
      var fits := if m < out.Length then |text| else out.Length - 1 - n;
      forall k | 0 <= k < fits {
        out[n + k] := text[k];
      }
      out[n + fits] := '\0';
    }
  }

  /** `memcpy` there. */
  method Memcpy(out: array<char>, n: nat, text: string, ghost before: string) returns (m: nat, inside: bool)
    requires Wrote(out, n, before)
    modifies out
    ensures inside <==> n + |text| <= out.Length
    ensures inside ==> Wrote(out, m, before + text)
    ensures inside && n < out.Length ==> out[..m] == before + text
  {
    m, inside := n + |text|, n + |text| <= out.Length;
    if inside {
      forall k | 0 <= k < |text| {
        out[n + k] := text[k];
      }
    }
  }

  method FindEnd(s: string, i: nat) returns (r: Option<nat>)
    ensures r == LineEnd(s, i)
  {
    var k := i;
    while k < |s| && !AtCrlf(s, k)
      invariant i <= k && LineEnd(s, k) == LineEnd(s, i)
    {
      k := k + 1;
    }
    r := if k < |s| then Some(k) else None;
  }

  method StrNCaseCmp(s: string, i: nat, name: string) returns (same: bool)
    ensures same == NameAt(s, i, name)
  {
    if i + |name| > |s| {
      return false;
    }
    var k := 0;
    while k < |name|
      invariant 0 <= k <= |name|
      invariant forall j | 0 <= j < k :: ToLower(s[i + j]) == ToLower(name[j])
    {
      if ToLower(s[i + k]) != ToLower(name[k]) {
        return false;
      }
      k := k + 1;
    }
    same := true;
  }

  /** A name holds no CR, so it is matched within the line or not at all. */
  lemma NameInLine(s: string, i: nat, end: nat, name: string)
    requires i <= end && AtCrlf(s, end) && forall k | 0 <= k < |name| :: ToLower(name[k]) != '\r'
    ensures NameAt(s, i, name) == NameAt(s[i..end], 0, name)
  {
    if i + |name| > end {
      NameCovers(s, i, name, end - i);
    }
  }

  lemma BlockConcat(a: seq<string>, b: seq<string>)
    ensures Block(a + b) == Block(a) + Block(b)
  {
    if a == [] {
      assert a + b == b;
    } else {
      assert (a + b)[1..] == a[1..] + b;
      BlockConcat(a[1..], b);
    }
  }

  /** The comparisons in the buffer decide about the line. */
  lemma LineNames(s: string, p: nat, end: nat)
    requires p < |s| && LineEnd(s, p) == Some(end)
    ensures p <= end && end + 2 <= |s| && AtCrlf(s, end)
    ensures Dropped(s[p..end]) == (NameAt(s, p, PROXY) || NameAt(s, p, CONNECTION))
    ensures IsHost(s[p..end]) == NameAt(s, p, HOST)
  {
    LineEndFirst(s, p);
    hide NameAt, LineEnd;
    NameInLine(s, p, end, PROXY);
    NameInLine(s, p, end, CONNECTION);
    NameInLine(s, p, end, HOST);
  }

  /** One line moves from the lines ahead to those behind. */
  lemma StepLine(s: string, p: nat, end: nat, done: seq<string>, all: seq<string>)
    requires p < |s| && !AtCrlf(s, p) && LineEnd(s, p) == Some(end)
    requires done + HeaderLines(s, p) == all
    ensures p <= end && end + 2 <= |s| && done + [s[p..end]] + HeaderLines(s, end + 2) == all
  {
    HeaderLinesStep(s, p, end);
    hide HeaderLines, LineEnd, AtCrlf;
    assert done + ([s[p..end]] + HeaderLines(s, end + 2)) == done + [s[p..end]] + HeaderLines(s, end + 2);
  }

  lemma KeepMore(done: seq<string>, l: string)
    ensures Keep(done + [l]) == if Dropped(l) then Keep(done) else Keep(done) + [l]
    ensures HasHost(Keep(done + [l])) <==> HasHost(Keep(done)) || (!Dropped(l) && IsHost(l))
  {
    hide NameAt;
    KeepConcat(done, [l]);
    assert [l][1..] == [];
    var kept := Keep(done);
    var more := Keep(done + [l]);
    forall i | 0 <= i < |kept| ensures more[i] == kept[i] {
    }
    if !Dropped(l) { assert more[|kept|] == l; }
  }

  lemma BlockMore(lines: seq<string>, l: string)
    ensures Block(lines + [l]) == Block(lines) + (l + CRLF)
    ensures |Block(lines + [l])| == |Block(lines)| + |l| + 2
  {
    BlockConcat(lines, [l]);
    assert [l][1..] == [];
  }

  /** What has been copied is a beginning of what is to be. */
  lemma KeptFits(done: seq<string>, rest: seq<string>)
    ensures |Block(Keep(done))| <= |Block(Keep(done + rest))|
  {
    KeepConcat(done, rest);
    BlockConcat(Keep(done), Keep(rest));
  }

  lemma NothingKept()
    ensures Keep([]) == [] && Block([]) == "" && !HasHost([])
  {
  }

  lemma Joined(a: string, b: string, c: string, d: string)
    ensures a + (b + c + d) == a + b + c + d
  {
  }

  /** The text behind the request line, in the order it is written. */
  lemma MessageIs(req: Request, lines: seq<string>)
    ensures var kept := Keep(lines); var head := RequestLine(req) + CRLF + Block(kept);
      Message(req, Rewritten(req, lines))
      == (if HasHost(kept) then head else head + (HOST + " " + req.host + CRLF)) + (CLOSE + CRLF) + CRLF
  {
    var kept := Keep(lines);
    var host, first := HOST + " " + req.host, RequestLine(req) + CRLF;
    hide Keep, HasHost, RequestLine, Block;
    if HasHost(kept) {
      assert kept + [] == kept;
      BlockMore(kept, CLOSE);
      Joined(first, Block(kept), CLOSE + CRLF, CRLF);
    } else {
      BlockMore(kept, host);
      BlockMore(kept + [host], CLOSE);
      Joined(first, Block(kept) + (host + CRLF), CLOSE + CRLF, CRLF);
      assert first + (Block(kept) + (host + CRLF)) == first + Block(kept) + (host + CRLF);
    }
  }

  lemma NoLine(s: string, p: nat)
    requires p >= |s| || AtCrlf(s, p) || LineEnd(s, p).None?
    ensures HeaderLines(s, p) == []
  {
  }

  /** One line of the loop: dropped, or copied, and noticed if it names the host. */
  method CopyOrDrop(buf: string, p: nat, end: nat, out: array<char>, n: nat, hasHost: bool,
                    ghost before: string, ghost done: seq<string>)
    returns (m: nat, host: bool, inside: bool)
    requires p < |buf| && !AtCrlf(buf, p) && LineEnd(buf, p) == Some(end)
    requires Wrote(out, n, before + Block(Keep(done))) && hasHost == HasHost(Keep(done))
    modifies out
    ensures inside ==> Wrote(out, m, before + Block(Keep(done + [buf[p..end]])))
    ensures !inside ==> |before + Block(Keep(done + [buf[p..end]]))| > out.Length
    ensures host == HasHost(Keep(done + [buf[p..end]]))
  {
    hide *;
    ghost var l := buf[p..end];
    LineNames(buf, p, end);
    KeepMore(done, l);
    m, host, inside := n, hasHost, true;
    var proxy := StrNCaseCmp(buf, p, PROXY);
    var connection := StrNCaseCmp(buf, p, CONNECTION);
    if !proxy && !connection {
      var named := StrNCaseCmp(buf, p, HOST);
      host := hasHost || named;
      ghost var text, line := Block(Keep(done)), l + CRLF;
      BlockMore(Keep(done), l);
      LineWithEnd(buf, p, end);
      WroteLength(out, n, before + text);
      assert before + text + line == before + (text + line);
      m, inside := Memcpy(out, n, buf[p..end + 2], before + text);
    }
  }

  lemma LineWithEnd(buf: string, p: nat, end: nat)
    requires p <= end && AtCrlf(buf, end)
    ensures end + 2 <= |buf| && buf[p..end + 2] == buf[p..end] + CRLF
  {
  }

  lemma WroteLength(out: array<char>, n: nat, text: string)
    requires Wrote(out, n, text)
    ensures n == |text|
  {
  }

  /** The loop over the header lines, up to the line that would leave the buffer. */
  method CopyLines(buf: string, start: nat, out: array<char>, n0: nat, ghost before: string)
    returns (n: nat, hasHost: bool, inside: bool)
    requires Wrote(out, n0, before)
    modifies out
    ensures inside ==> Wrote(out, n, before + Block(Keep(HeaderLines(buf, start))))
    ensures !inside ==> |before + Block(Keep(HeaderLines(buf, start)))| > out.Length
    ensures inside ==> hasHost == HasHost(Keep(HeaderLines(buf, start)))
  {
    n, hasHost, inside := n0, false, true;
    var p := start;
    ghost var all := HeaderLines(buf, start);
    ghost var done: seq<string> := [];
    NothingKept();
    hide Block, Keep, HasHost, HeaderLines, NameAt, Dropped, IsHost, LineEnd, Wrote, AtCrlf;
    assert before + "" == before;
    while p < |buf| && !AtCrlf(buf, p)
      invariant done + HeaderLines(buf, p) == all
      invariant Wrote(out, n, before + Block(Keep(done)))
      invariant hasHost == HasHost(Keep(done)) && inside
    {
      var lineEnd := FindEnd(buf, p);
      if lineEnd.None? {
        NoLine(buf, p);
        break;
      }
      var end := lineEnd.value;
      ghost var l := buf[p..end];
      StepLine(buf, p, end, done, all);
      KeptFits(done + [l], HeaderLines(buf, end + 2));
      n, hasHost, inside := CopyOrDrop(buf, p, end, out, n, hasHost, before, done);
      if !inside {
        return;
      }
      done := done + [l];
      p := end + 2;
    }
    if p >= |buf| || AtCrlf(buf, p) {
      NoLine(buf, p);
    }
    assert done + [] == done;
  }

  /** What becomes of a request: no line in it, so nothing is sent; sent; or some write leaves the buffer. */
  datatype Sending = Nothing | Sent(text: string) | PastEnd

  /** Building the text in a buffer of `size` characters: it stays inside exactly when the text fits. */
  function Built(req: Request, buf: string, size: nat): Sending {
    match Forward(req, buf)
    case None => Nothing
    case Some(text) => if |text| <= size then Sent(text) else PastEnd
  }

  lemma BuiltFits(req: Request, buf: string, size: nat)
    ensures Built(req, buf, size) == Nothing <==> Forward(req, buf) == None
    ensures forall text :: Built(req, buf, size) == Sent(text) <==> Forward(req, buf) == Some(text) && |text| <= size
  {
    hide Forward;
  }

  /** `forward_http_request`, whatever the lengths. */
  method ForwardHttpRequest(req: Request, buf: string, out: array<char>) returns (sent: Sending)
    requires out.Length == 16384
    modifies out
    ensures sent == Built(req, buf, 16384)
  {
    hide RequestLine, Block, Keep, HasHost, HeaderLines, LineEnd, Message, Rewritten, Forward;
    ghost var first := RequestLine(req) + CRLF;
    assert "" + first == first;
    var n, inside := Snprintf(out, 0, RequestLine(req) + CRLF, "");
    var p := FindEnd(buf, 0);
    if p.None? {
      NothingForwarded(req, buf);
      return Nothing;
    }
    ghost var lines := HeaderLines(buf, p.value + 2);
    ForwardIs(req, buf, p.value);
    MessageIs(req, lines);
    var hasHost;
    n, hasHost, inside := CopyLines(buf, p.value + 2, out, n, first);
    ghost var text := first + Block(Keep(lines));
    if !inside {
      return PastEnd;
    }
    if !hasHost {
      WroteLength(out, n, text);
      n, inside := Snprintf(out, n, HOST + " " + req.host + CRLF, text);
      if !inside {
        return PastEnd;
      }
      text := text + (HOST + " " + req.host + CRLF);
    }
    sent := Finish(out, n, text);
  }

  lemma NothingForwarded(req: Request, buf: string)
    requires LineEnd(buf, 0).None?
    ensures Forward(req, buf).None?
  {
  }

  /** The closing line, the empty line, and `send_all` of the buffer's first `n` characters. */
  method Finish(out: array<char>, n0: nat, ghost text: string) returns (sent: Sending)
    requires Wrote(out, n0, text)
    modifies out
    ensures var all := text + (CLOSE + CRLF) + CRLF; sent == if |all| <= out.Length then Sent(all) else PastEnd
  {
    WroteLength(out, n0, text);
    hide Wrote;
    var n, inside := Snprintf(out, n0, CLOSE + CRLF, text);
    if !inside {
      return PastEnd;
    }
    WroteLength(out, n, text + (CLOSE + CRLF));
    n, inside := Memcpy(out, n, CRLF, text + (CLOSE + CRLF));
    if !inside {
      return PastEnd;
    }
    WroteLength(out, n, text + (CLOSE + CRLF) + CRLF);
    sent := Sent(out[..n]);
  }

  /** `strstr` for the empty line. */
  method FindHeaderEnd(s: string) returns (r: Option<nat>)
    ensures r == HeaderEnd(s, 0)
  {
    var k := 0;
    while k < |s| && !(AtCrlf(s, k) && AtCrlf(s, k + 2))
      invariant HeaderEnd(s, k) == HeaderEnd(s, 0)
    {
      k := k + 1;
    }
    r := if k < |s| then Some(k) else None;
  }

  /** The call sites: the header, and what is left of the chunk behind it. The answer is what the server receives,
      unless the buffer is left. */
  method ForwardChunk(req: Request, buf: string, out: array<char>) returns (server: Option<string>)
    requires out.Length == 16384
    modifies out
    ensures server.None? <==> Built(req, buf, 16384) == PastEnd
    ensures server.Some? ==> server.value == Delivered(req, buf)
  {
    hide Forward, HeaderEnd;
    var sent := ForwardHttpRequest(req, buf, out);
    if sent == PastEnd {
      return None;
    }
    var text := if sent.Sent? then sent.text else "";
    var k := FindHeaderEnd(buf);
    if k.Some? {
      var body := k.value + 4;
      if |buf| - body > 0 {
        text := text + buf[body..];
      }
    }
    server := Some(text);
  }

  // ---------- how long the text gets ----------

  lemma {:induction false} KeepShortens(lines: seq<string>)
    ensures |Block(Keep(lines))| <= |Block(lines)|
  {
    if lines != [] {
      KeepShortens(lines[1..]);
      BlockConcat(if Dropped(lines[0]) then [] else [lines[0]], Keep(lines[1..]));
    }
  }

  lemma BlockStep(l: string, rest: seq<string>)
    ensures |Block([l] + rest)| == |l| + 2 + |Block(rest)| && |Block([])| == 0
  {
    assert ([l] + rest)[1..] == rest;
  }

  lemma {:induction false} LinesInside(s: string, i: nat)
    requires i <= |s|
    ensures |Block(HeaderLines(s, i))| <= |s| - i
    decreases |s| - i
  {
    if i < |s| && !AtCrlf(s, i) && LineEnd(s, i).Some? {
      var end := LineEnd(s, i).value;
      HeaderLinesStep(s, i, end);
      hide *;
      LinesInside(s, end + 2);
      BlockStep(s[i..end], HeaderLines(s, end + 2));
    } else {
      NoLine(s, i);
    }
  }

  /** The text is at most as long as what was received, but for its first line, a Host line that is added, the
      closing line and the empty line. */
  lemma ForwardBound(req: Request, buf: string, end: nat)
    requires LineEnd(buf, 0) == Some(end)
    ensures Forward(req, buf).Some?
    ensures var added := if HasHost(Keep(HeaderLines(buf, end + 2))) then 0 else |req.host| + 8;
      |Forward(req, buf).value| <= |RequestLine(req)| + (|buf| - end) + added + 21
  {
    var lines := HeaderLines(buf, end + 2);
    hide Block, Keep, HasHost, HeaderLines, LineEnd, RequestLine, Forward, Rewritten, Message;
    ForwardIs(req, buf, end);
    MessageIs(req, lines);
    KeepShortens(lines);
    LinesInside(buf, end + 2);
  }

  /** A request that fills the buffer it is received in, and whose header leaves the one it is copied to. */
  lemma HeaderLeaves(req: Request) returns (buf: string)
    ensures |buf| == 16384 && Built(req, buf, 16384) == PastEnd
  {
    var line := seq(BUF_SIZE - 7, _ => 'a');
    buf := "G" + CRLF + (line + CRLF + CRLF);
    FirstCrlf("G" + CRLF, 0, 1);
    FirstCrlf(line + CRLF, 0, |line|);
    assert Block([line]) == line + CRLF by { assert [line][1..] == []; assert line + CRLF + "" == line + CRLF; }
    BlockBehindLine("G", [line]);
    assert !Dropped(line) by { NotNamed(line, PROXY); NotNamed(line, CONNECTION); }
    assert Keep([line]) == [line] by { assert [line][1..] == []; }
    hide *;
    MessageIs(req, [line]);
    ForwardIs(req, buf, 1);
    TooLong(req, [line], buf);
  }

  lemma TooLong(req: Request, lines: seq<string>, buf: string)
    requires Forward(req, buf) == Some(Message(req, Rewritten(req, lines)))
    requires |Block(Keep(lines))| > BUF_SIZE - 6
    ensures Built(req, buf, BUF_SIZE) == PastEnd
  {
    MessageIs(req, lines);
    hide Block, Keep, HasHost, RequestLine, Forward, Rewritten, Message;
  }
}
