/** The JSON messages of the tic-tac-toe server (TicTacToe/Server/message.c), alone and inside frames. */
module Messages {
  import opened Options
  import opened Bytes
  import opened Texts
  import Frames
  import Numerals

  /** The message that both sides exchange. */
  datatype Message = Message(matchid: string, player: char, code: string, message: string)

  const QUOTE: char := '\"'

  // ---------- create_message_json ----------

  const HEAD := "{\"matchid\":\""
  const PLAYER := "\",\"player\":\""
  const CODE := "\",\"code\":\""
  const TEXT := "\",\"message\":\""
  const TAIL := "\"}"

  /** What `sprintf` prints for the message. */
  function Json(m: Message): string {
    HEAD + m.matchid + PLAYER + [m.player] + CODE + m.code + TEXT + m.message + TAIL
  }

  /** The text around the fields, written out. */
  lemma JsonIs(id: string, player: char, code: string, text: string)
    ensures Json(Message(id, player, code, text))
         == "{\"matchid\":\"" + id + "\",\"player\":\"" + [player] + "\",\"code\":\"" + code
            + "\",\"message\":\"" + text + "\"}"
  {
  }

  /** The message that `create_message_json` is given: the match id is an int. */
  function Outgoing(matchID: int, player: char, code: string, message: string): Message {
    Message(Numerals.Text(matchID, 10), player, code, message)
  }

  // ---------- strstr and the scans ----------

  predicate At(s: string, i: nat, word: string) {
    i + |word| <= |s| && s[i..i + |word|] == word
  }

  /** `strstr` from `i`: the first occurrence before a NUL; None also when the search leaves the buffer. */
  function Find(s: string, i: nat, word: string): (r: Option<nat>)
    ensures r.Some? ==> i <= r.value && At(s, r.value, word)
    decreases |s| - i
  {
    if i >= |s| then None
    else if At(s, i, word) then Some(i)
    else if s[i] == '\0' then None
    else Find(s, i + 1, word)
  }

  /** What the search finds: the first place where the word stands, before which there is neither it nor a NUL. */
  lemma {:induction false} FindIs(s: string, i: nat, word: string, p: nat)
    ensures Find(s, i, word) == Some(p) <==>
      && i <= p < |s| && p + |word| <= |s| && s[p..p + |word|] == word
      && forall k | i <= k < p :: s[k] != '\0' && !At(s, k, word)
    decreases |s| - i
  {
    if i < |s| && !At(s, i, word) && s[i] != '\0' {
      FindIs(s, i + 1, word, p);
    }
  }

  /** The first quote at or after `i`; None when the scan leaves the buffer. */
  function Scan(s: string, i: nat): (r: Option<nat>)
    ensures r.Some? ==> i <= r.value < |s| && s[r.value] == QUOTE
    ensures r.Some? ==> forall k | i <= k < r.value :: s[k] != QUOTE
    decreases |s| - i
  {
    if i >= |s| then None
    else if s[i] == QUOTE then Some(i)
    else Scan(s, i + 1)
  }

  // ---------- parse_json_string ----------

  /** The text that starts `skip` characters into the first `word` found from `i` on, up to a quote: where
      it starts and ends. */
  function Field(s: string, i: nat, word: string, skip: nat): (r: Option<(nat, nat)>)
    ensures r.Some? ==> r.value.0 <= r.value.1 < |s| && s[r.value.1] == QUOTE
    ensures r.Some? ==> i <= r.value.0
  {
    match Find(s, i, word)
    case None => None
    case Some(at) =>
      match Scan(s, at + skip)
      case None => None
      case Some(end) => Some((at + skip, end))
  }

  /** Where the parts of a message lie: its three texts and the player. */
  datatype Layout = Layout(id: (nat, nat), player: nat, code: (nat, nat), text: (nat, nat))

  /** The search of `parse_json_string` from the player on, which `p` points to. */
  function LocateRest(s: string, id: (nat, nat), p: nat): (r: Option<Layout>)
    ensures r.Some? ==>
      && r.value.id == id && r.value.player == p + 9 < |s|
      && p <= r.value.code.0 <= r.value.code.1 < r.value.text.0 <= r.value.text.1 < |s|
      && s[r.value.code.1] == s[r.value.text.1] == QUOTE
  {
    if p + 9 >= |s| then None else
    match Field(s, p, "code", 7)
    case None => None
    case Some(code) =>
      match Field(s, code.1 + 1, "message", 10)
      case None => None
      case Some(text) => Some(Layout(id, p + 9, code, text))
  }

  /** The whole search; None where it would leave the buffer or use a null pointer. */
  function Locate(s: string): (r: Option<Layout>)
    ensures r.Some? ==>
      && r.value.id.0 <= r.value.id.1 < r.value.player < |s|
      && r.value.id.1 < r.value.code.0 <= r.value.code.1 < r.value.text.0 <= r.value.text.1 < |s|
      && s[r.value.id.1] == s[r.value.code.1] == s[r.value.text.1] == QUOTE
  {
    match Field(s, 0, "matchid", 10)
    case None => None
    case Some(id) =>
      match Find(s, id.1 + 1, "player")
      case None => None
      case Some(p) => LocateRest(s, id, p)
  }

  function Cut(s: string, span: (nat, nat)): string
    requires span.0 <= span.1 <= |s|
  {
    Terminated(s[span.0..span.1])
  }

  function ParseJson(s: string): Option<Message> {
    match Locate(s)
    case None => None
    case Some(l) => Some(Message(Cut(s, l.id), s[l.player], Cut(s, l.code), Cut(s, l.text)))
  }

  // ---------- the round trip ----------

  ghost predicate NoNul(s: string) {
    '\0' !in s
  }

  /** No quote and no NUL. */
  ghost predicate Plain(s: string) {
    '\0' !in s && QUOTE !in s
  }

  lemma {:induction false} TerminatedPlain(t: string)
    requires NoNul(t)
    ensures Terminated(t) == t
  {
    if t != "" {
      assert t[0] in t;
      TerminatedPlain(t[1..]);
    }
  }

  lemma {:induction false} TerminatedWithout(t: string, c: char)
    requires c !in t
    ensures c !in Terminated(t)
  {
    if t != "" {
      TerminatedWithout(t[1..], c);
    }
  }

  /** A scan stops behind a quote-free stretch. */
  lemma {:induction false} ScanStops(s: string, i: nat, j: nat)
    requires i <= j < |s| && s[j] == QUOTE
    requires forall k | i <= k < j :: s[k] != QUOTE
    ensures Scan(s, i) == Some(j)
    decreases j - i
  {
    if i < j {
      ScanStops(s, i + 1, j);
    }
  }

  /** A search steps over two characters that do not start the word. */
  lemma FindSkips(s: string, i: nat, word: string)
    requires i + 1 < |s| && |word| >= 2 && s[i] != '\0'
    requires s[i] != word[0] || s[i + 1] != word[1]
    ensures Find(s, i, word) == Find(s, i + 1, word)
  {
    AtStarts(s, i, word);
  }

  lemma AtStarts(s: string, i: nat, word: string)
    requires i + 1 < |s| && |word| >= 2
    ensures At(s, i, word) ==> s[i] == word[0] && s[i + 1] == word[1]
  {
    if i + |word| <= |s| {
      var found := s[i..i + |word|];
      assert found[0] == s[i] && found[1] == s[i + 1];
    }
  }

  lemma FindHere(s: string, i: nat, word: string)
    requires word != "" && At(s, i, word)
    ensures Find(s, i, word) == Some(i)
  {
  }

  /** A word found `gap` characters on, over characters that do not start it. */
  lemma {:induction false} FindAfter(s: string, i: nat, gap: nat, word: string)
    requires |word| >= 2 && At(s, i + gap, word)
    requires forall k | i <= k < i + gap :: s[k] != '\0' && (s[k] != word[0] || s[k + 1] != word[1])
    ensures Find(s, i, word) == Some(i + gap)
    decreases gap
  {
    if gap == 0 {
      FindHere(s, i, word);
    } else {
      FindSkips(s, i, word);
      FindAfter(s, i + 1, gap - 1, word);
    }
  }

  /** The text in front of a field ends with the field's name and `":"`, and the name does not start before. */
  ghost predicate Leads(lead: string, gap: nat, word: string) {
    && |word| >= 2 && gap + |word| + 3 == |lead|
    && lead[gap..gap + |word|] == word
    && forall k | 0 <= k < gap :: lead[k] != '\0' && (lead[k] != word[0] || lead[k + 1] != word[1])
  }

  lemma IdLeads()
    ensures Leads(HEAD, 2, "matchid") && |HEAD| == 12
  {
    assert HEAD[2..9] == "matchid";
  }

  lemma CodeLeads(player: char)
    requires player != '\0'
    ensures var lead := "player\":\"" + [player] + CODE; Leads(lead, 13, "code") && |lead| == 20
  {
    var front, lead := "player\":\"" + [player], "player\":\"" + [player] + CODE;
    assert |front| == 10 && CODE[3..7] == "code";
    assert lead[13..17] == CODE[3..7];
  }

  lemma TextLeads()
    ensures Leads(",\"message\":\"", 2, "message") && |",\"message\":\""| == 12
  {
    assert ",\"message\":\""[2..9] == "message";
  }

  lemma WordFound(s: string, a: string, lead: string, gap: nat, word: string, b: string)
    requires Leads(lead, gap, word) && s == a + lead + b
    ensures Find(s, |a|, word) == Some(|a| + gap)
  {
    assert s[|a|..|a| + |lead|] == lead;
    assert s[|a| + gap..|a| + gap + |word|] == lead[gap..gap + |word|];
    forall k | |a| <= k < |a| + gap ensures s[k] != '\0' && (s[k] != word[0] || s[k + 1] != word[1]) {
      assert s[k] == lead[k - |a|] && s[k + 1] == lead[k - |a| + 1];
    }
    FindAfter(s, |a|, gap, word);
  }

  lemma FieldSlice(s: string, front: string, field: string, b: string)
    requires s == front + field + b && QUOTE !in field && b != "" && b[0] == QUOTE
    ensures var from := |front|;
      && from + |field| < |s| && s[from..from + |field|] == field && s[from + |field|] == QUOTE
      && (forall k | from <= k < from + |field| :: s[k] != QUOTE)
  {
    var from := |front|;
    forall k | from <= k < from + |field| ensures s[k] != QUOTE {
      assert s[k] == field[k - from];
    }
    assert s[from + |field|] == b[0];
  }

  /** A quote-free field is found whole. */
  lemma FieldFound(s: string, a: string, lead: string, gap: nat, word: string, field: string, b: string)
    requires Leads(lead, gap, word) && s == a + lead + field + b
    requires QUOTE !in field && b != "" && b[0] == QUOTE
    ensures var from := |a| + |lead|;
      && from + |field| <= |s|
      && Field(s, |a|, word, |word| + 3) == Some((from, from + |field|))
      && s[from..from + |field|] == field
  {
    hide Find, Scan, At;
    var from := |a| + |lead|;
    assert |a| + gap + (|word| + 3) == from;
    WordFound(s, a, lead, gap, word, field + b) by {
      assert s == a + lead + (field + b);
    }
    hide Leads;
    FieldSlice(s, a + lead, field, b);
    ScanStops(s, from, from + |field|);
  }

  /** The text behind the match id, the code and the message. */
  function AfterId(m: Message): string {
    PLAYER + [m.player] + CODE + m.code + TEXT + m.message + TAIL
  }

  function AfterCode(m: Message): string {
    TEXT + m.message + TAIL
  }

  lemma JsonAtId(m: Message, rest: string)
    ensures Json(m) + rest == "" + HEAD + m.matchid + (AfterId(m) + rest)
    ensures AfterId(m) + rest != "" && (AfterId(m) + rest)[0] == QUOTE
  {
  }

  lemma JsonAtPlayer(m: Message, rest: string)
    ensures Json(m) + rest
         == HEAD + m.matchid + "\",\"" + ("player\":\"" + [m.player] + CODE) + m.code + (AfterCode(m) + rest)
    ensures AfterCode(m) + rest != "" && (AfterCode(m) + rest)[0] == QUOTE
  {
    assert PLAYER == "\",\"" + "player\":\"";
  }

  lemma JsonAtText(m: Message, rest: string)
    ensures Json(m) + rest
         == HEAD + m.matchid + PLAYER + [m.player] + CODE + m.code + "\"" + ",\"message\":\"" + m.message +
           (TAIL + rest)
    ensures TAIL + rest != "" && (TAIL + rest)[0] == QUOTE
  {
    assert TEXT == "\"" + ",\"message\":\"";
  }

  /** Where the match id lies. */
  lemma IdFound(m: Message, rest: string)
    requires QUOTE !in m.matchid
    ensures var s := Json(m) + rest;
      && 12 + |m.matchid| <= |s|
      && Field(s, 0, "matchid", 10) == Some((12, 12 + |m.matchid|))
      && s[12..12 + |m.matchid|] == m.matchid
  {
    hide Field, Json, Leads, AfterId;
    IdLeads();
    JsonAtId(m, rest);
    FieldFound(Json(m) + rest, "", HEAD, 2, "matchid", m.matchid, AfterId(m) + rest);
  }

  /** Where the player lies: `p` is the position of the word. */
  lemma PlayerFound(m: Message, rest: string)
    ensures var s := Json(m) + rest; var p := 12 + |m.matchid| + 3;
      Find(s, 12 + |m.matchid| + 1, "player") == Some(p) && p + 9 < |s| && s[p + 9] == m.player
  {
    hide Json, AfterCode;
    JsonAtPlayer(m, rest);
    var a := HEAD + m.matchid;
    var s := Json(m) + rest;
    var p := |a| + 3;
    var word := "player";
    assert s[p..p + 6] == word;
    assert s[|a| + 1] == ',' && s[|a| + 2] == QUOTE;
    FindAfter(s, |a| + 1, 2, word);
  }

  /** Where the code lies. */
  lemma CodeFound(m: Message, rest: string)
    requires m.player != '\0' && QUOTE !in m.code
    ensures var s := Json(m) + rest; var p := 12 + |m.matchid| + 3;
      && p + 20 + |m.code| <= |s|
      && Field(s, p, "code", 7) == Some((p + 20, p + 20 + |m.code|))
      && s[p + 20..p + 20 + |m.code|] == m.code
  {
    hide Field, Json, Leads, AfterCode;
    CodeLeads(m.player);
    JsonAtPlayer(m, rest);
    FieldFound(Json(m) + rest, HEAD + m.matchid + "\",\"", "player\":\"" + [m.player] + CODE, 13, "code", m.code,
               AfterCode(m) + rest);
  }

  /** Where the message text lies. */
  lemma TextFound(m: Message, rest: string)
    requires QUOTE !in m.message
    ensures var s := Json(m) + rest; var from := 12 + |m.matchid| + 23 + |m.code|;
      && from + 13 + |m.message| <= |s|
      && Field(s, from + 1, "message", 10) == Some((from + 13, from + 13 + |m.message|))
      && s[from + 13..from + 13 + |m.message|] == m.message
  {
    hide Field, Json, Leads;
    TextLeads();
    JsonAtText(m, rest);
    FieldFound(Json(m) + rest, HEAD + m.matchid + PLAYER + [m.player] + CODE + m.code + "\"", ",\"message\":\"", 2,
               "message", m.message, TAIL + rest);
  }

  lemma LocateFrom(s: string, id: (nat, nat), p: nat, code: (nat, nat), text: (nat, nat))
    requires Field(s, 0, "matchid", 10) == Some(id)
    requires Find(s, id.1 + 1, "player") == Some(p) && p + 9 < |s|
    requires Field(s, p, "code", 7) == Some(code)
    requires Field(s, code.1 + 1, "message", 10) == Some(text)
    ensures Locate(s) == Some(Layout(id, p + 9, code, text))
  {
    hide Field, Find;
    assert LocateRest(s, id, p) == Some(Layout(id, p + 9, code, text)) by { hide Locate; }
    hide LocateRest;
  }

  lemma LocateJson(m: Message, rest: string)
    requires QUOTE !in m.matchid && QUOTE !in m.code && QUOTE !in m.message && m.player != '\0'
    ensures var s := Json(m) + rest;
      && Locate(s).Some?
      && var l := Locate(s).value;
        && s[l.id.0..l.id.1] == m.matchid && s[l.player] == m.player
        && s[l.code.0..l.code.1] == m.code && s[l.text.0..l.text.1] == m.message
  {
    hide Field, Find, Json, Locate;
    IdFound(m, rest);
    PlayerFound(m, rest);
    CodeFound(m, rest);
    TextFound(m, rest);
    var n := 12 + |m.matchid|;
    var c := n + 23 + |m.code|;
    LocateFrom(Json(m) + rest, (12, n), n + 3, (n + 23, c), (c + 13, c + 13 + |m.message|));
  }

  /** Parsed texts contain no quote. */
  lemma ParsedUnquoted(s: string)
    requires ParseJson(s).Some?
    ensures QUOTE !in ParseJson(s).value.code && QUOTE !in ParseJson(s).value.message
  {
    var l := Locate(s).value;
    FieldUnquoted(s);
    hide Locate;
    TerminatedWithout(s[l.code.0..l.code.1], QUOTE);
    TerminatedWithout(s[l.text.0..l.text.1], QUOTE);
  }

  lemma ParsedNoNul(s: string)
    requires ParseJson(s).Some?
    ensures NoNul(ParseJson(s).value.code) && NoNul(ParseJson(s).value.message)
  {
    var l := Locate(s).value;
    hide Locate;
    TerminatedNoNul(s[l.code.0..l.code.1]);
    TerminatedNoNul(s[l.text.0..l.text.1]);
  }

  lemma FieldUnquoted(s: string)
    requires Locate(s).Some?
    ensures var l := Locate(s).value; QUOTE !in s[l.code.0..l.code.1] && QUOTE !in s[l.text.0..l.text.1]
  {
    hide Find, Scan;
  }

  /** A created message is read back, whatever follows it in memory, exactly when neither the code nor the
      text holds a quote. C strings hold no NUL; the player's character must not be one. */
  lemma ParsesBackExactly(matchID: int, player: char, code: string, message: string, rest: string)
    requires player != '\0' && NoNul(code) && NoNul(message)
    ensures var m := Outgoing(matchID, player, code, message);
      ParseJson(Json(m) + rest) == Some(m) <==> QUOTE !in code && QUOTE !in message
  {
    var m := Outgoing(matchID, player, code, message);
    var s := Json(m) + rest;
    NumeralPlain(matchID);
    if QUOTE !in code && QUOTE !in message {
      LocateJson(m, rest);
      hide Locate, Json;
      TerminatedPlain(m.matchid);
      TerminatedPlain(code);
      TerminatedPlain(message);
    } else if ParseJson(s).Some? {
      hide ParseJson, Json;
      ParsedUnquoted(s);
    }
  }

  /** A text that is cut short. */
  lemma QuoteCuts()
    ensures var m := Outgoing(7, 'X', "CHAT", "say \"hi\""); ParseJson(Json(m)) != Some(m)
  {
    var m := Outgoing(7, 'X', "CHAT", "say \"hi\"");
    assert m.message[4] == QUOTE;
    ParsesBackExactly(7, 'X', "CHAT", m.message, "");
    assert Json(m) + "" == Json(m);
  }

  /** What was parsed can be sent on: the server relays a code and a text that it has received. */
  lemma RelayedArrives(received: string, matchID: int, rest: string)
    requires ParseJson(received).Some? && ParseJson(received).value.player != '\0'
    ensures var r := ParseJson(received).value;
      var m := Outgoing(matchID, r.player, r.code, r.message);
      ParseJson(Json(m) + rest) == Some(m)
  {
    var r := ParseJson(received).value;
    ParsedUnquoted(received);
    ParsedNoNul(received);
    ParsesBackExactly(matchID, r.player, r.code, r.message, rest);
  }

  /** A printed int holds neither a quote nor a NUL. */
  lemma NumeralPlain(n: int)
    ensures Plain(Numerals.Text(n, 10))
  {
    if n < 0 { DigitsPlain(-n); } else { DigitsPlain(n); }
  }

  lemma {:induction false} DigitsPlain(n: nat)
    ensures Plain(Numerals.Digits(n, 10))
  {
    if n >= 10 {
      DigitsPlain(n / 10);
    }
  }

  // ---------- messages in frames ----------

  /** What arrives when a message is sent as a text frame in any form, masked or not. */
  lemma MessageThroughFrame(matchID: int, player: char, code: string, message: string, h: Frames.Bits,
                            masking: Frames.Masking, form: Frames.Form, rest: seq<Byte>)
    requires h.Ok() && masking.Ok()
    requires player != '\0' && Plain(code) && Plain(message)
    requires var json := Json(Outgoing(matchID, player, code, message)); Latin(json) && Frames.Fits(form, |json|)
    ensures var m := Outgoing(matchID, player, code, message);
      var b := Frames.Encode(h, masking, form, ToBytes(Json(m))) + rest;
      && Frames.Complete(b)
      && ParseJson(ToText(Frames.Parse(b).payload)) == Some(m)
      && Numerals.ValueSigned(m.matchid, 10) == matchID
  {
    var m := Outgoing(matchID, player, code, message);
    hide Json, ParseJson;
    Frames.ParseEncode(h, masking, form, ToBytes(Json(m)), rest);
    TextBytes(Json(m));
    ParsesBackExactly(matchID, player, code, message, "");
    assert Json(m) + "" == Json(m);
    Numerals.TextReadsBack(matchID, 10);
  }

  /** What the server sends with `createFrame`: the buffer of `create_message_json` holds 1000 characters,
      so every message it can make fits. */
  lemma CreatedMessageArrives(matchID: int, player: char, code: string, message: string, h: Frames.Bits,
                              high: seq<bool>, rest: seq<Byte>)
    requires h.Ok() && |high| == 4
    requires player != '\0' && Plain(code) && Plain(message)
    requires var json := Json(Outgoing(matchID, player, code, message)); Latin(json) && |json| < 1000
    ensures var m := Outgoing(matchID, player, code, message);
      var b := Frames.Created(h, ToBytes(Json(m)), high) + rest;
      && Frames.Complete(b)
      && ParseJson(ToText(Frames.Parse(b).payload)) == Some(m)
  {
    var json := Json(Outgoing(matchID, player, code, message));
    hide Json, ParseJson, Frames.Encode, Frames.Created;
    Frames.CreatedIsMinimal(h, ToBytes(json), high);
    MessageThroughFrame(matchID, player, code, message, h, Frames.Unmasked, Frames.Minimal(|json|), rest);
  }

  // ---------- the parser in place ----------

  /** `strstr` in a buffer that it does not leave. */
  method StrStr(a: array<char>, from: nat, word: string) returns (at: nat)
    requires Find(a[..], from, word).Some?
    ensures Some(at) == Find(a[..], from, word)
  {
    at := from;
    while !At(a[..], at, word)
      invariant from <= at && Find(a[..], at, word) == Find(a[..], from, word)
      decreases a.Length - at
    {
      at := at + 1;
    }
  }

  /** The loop that looks for the closing quote. */
  method ToQuote(a: array<char>, from: nat) returns (at: nat)
    requires Scan(a[..], from).Some?
    ensures Some(at) == Scan(a[..], from)
  {
    at := from;
    while a[at] != QUOTE
      invariant from <= at && Scan(a[..], at) == Scan(a[..], from)
      decreases a.Length - at
    {
      at := at + 1;
    }
  }

  /** Only quotes before `limit` have changed. */
  lemma {:induction false} FindAgain(s: string, t: string, i: nat, word: string)
    requires |s| == |t| && (forall k | i <= k < |s| :: s[k] == t[k])
    ensures Find(s, i, word) == Find(t, i, word)
    decreases |s| - i
  {
    if i < |s| {
      assert At(s, i, word) == At(t, i, word) by {
        if i + |word| <= |s| { assert s[i..i + |word|] == t[i..i + |word|]; }
      }
      FindAgain(s, t, i + 1, word);
    }
  }

  lemma {:induction false} ScanAgain(s: string, t: string, i: nat)
    requires |s| == |t| && (forall k | i <= k < |s| :: s[k] == t[k])
    ensures Scan(s, i) == Scan(t, i)
    decreases |s| - i
  {
    if i < |s| {
      ScanAgain(s, t, i + 1);
    }
  }

  /** One field of the message: find the word, skip, and replace the closing quote by a terminator. */
  method TakeField(a: array<char>, from: nat, word: string, skip: nat, ghost s: string) returns (start: nat, end: nat)
    requires |s| == a.Length && (forall k | from <= k < |s| :: s[k] == a[k])
    requires Field(s, from, word, skip).Some?
    modifies a
    ensures Some((start, end)) == Field(s, from, word, skip)
    ensures a[end] == '\0'
    ensures forall k | 0 <= k < a.Length && k != end :: a[k] == old(a[k])
  {
    FindAgain(a[..], s, from, word);
    var at := StrStr(a, from, word);
    ScanAgain(a[..], s, at + skip);
    start := at + skip;
    end := ToQuote(a, start);
    a[end] := '\0';
  }

  /** `parse_json_string` finds the parts where `Locate` says and terminates the three texts in the buffer,
      which changes nowhere else. */
  method ParseJsonString(a: array<char>) returns (l: Layout, player: char)
    requires Locate(a[..]).Some?
    modifies a
    ensures Some(l) == Locate(old(a[..]))
    ensures player == old(a[..])[l.player]
    ensures a[..] == old(a[..])[l.id.1 := '\0'][l.code.1 := '\0'][l.text.1 := '\0']
  {
    hide Field, Find;
    ghost var s := a[..];
    var idStart, idEnd := TakeField(a, 0, "matchid", 10, s);
    FindAgain(a[..], s, idEnd + 1, "player");
    var p := StrStr(a, idEnd + 1, "player");
    player := a[p + 9];
    var codeStart, codeEnd := TakeField(a, p, "code", 7, s);
    var textStart, textEnd := TakeField(a, codeEnd + 1, "message", 10, s);
    l := Layout((idStart, idEnd), p + 9, (codeStart, codeEnd), (textStart, textEnd));
  }

  lemma {:induction false} TerminatedUpTo(t: string, rest: string)
    ensures Terminated(t + "\0" + rest) == Terminated(t)
  {
    var s := t + "\0" + rest;
    if t == "" {
      assert s[0] == '\0';
    } else if t[0] != '\0' {
      assert s[0] == t[0] && s[1..] == t[1..] + "\0" + rest;
      TerminatedUpTo(t[1..], rest);
    }
  }

  /** The C strings that start at the three pointers of the resulting buffer are the parsed texts. */
  lemma BufferHolds(s: string)
    requires Locate(s).Some?
    ensures var l := Locate(s).value;
      var b := s[l.id.1 := '\0'][l.code.1 := '\0'][l.text.1 := '\0'];
      && Terminated(b[l.id.0..]) == ParseJson(s).value.matchid
      && Terminated(b[l.code.0..]) == ParseJson(s).value.code
      && Terminated(b[l.text.0..]) == ParseJson(s).value.message
  {
    var l := Locate(s).value;
    var b := s[l.id.1 := '\0'][l.code.1 := '\0'][l.text.1 := '\0'];
    CutAt(s, b, l.id);
    CutAt(s, b, l.code);
    CutAt(s, b, l.text);
    hide Locate;
  }

  lemma CutAt(s: string, b: string, span: (nat, nat))
    requires |b| == |s| && span.0 <= span.1 < |s| && b[span.1] == '\0'
    requires forall k | span.0 <= k < span.1 :: b[k] == s[k]
    ensures Terminated(b[span.0..]) == Cut(s, span)
  {
    assert b[span.0..] == s[span.0..span.1] + "\0" + b[span.1 + 1..];
    TerminatedUpTo(s[span.0..span.1], b[span.1 + 1..]);
  }
}
