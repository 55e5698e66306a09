/** What the echo client and server put on the wire (Mini Project 27-1-26/datapack.h): counters in network
    byte order, padded text fields, and buffers sent and received whole over a stream that comes in pieces. */
module EchoWire {
  import opened Bytes
  import opened Texts

  // ---------- htonll and ntohll ----------

  /** The `k` low bytes of `v`, least significant first. */
  function LittleEndian(v: nat, k: nat): (b: seq<Byte>)
    ensures |b| == k
  {
    if k == 0 then [] else [v % 256] + LittleEndian(v / 256, k - 1)
  }

  function FromLittle(b: seq<Byte>): nat {
    if b == [] then 0 else b[0] + 256 * FromLittle(b[1..])
  }

  /** An unsigned integer of `k` bytes in the memory of a little- or big-endian host. */
  function InMemory(little: bool, v: nat, k: nat): (b: seq<Byte>)
    ensures |b| == k
  {
    if little then LittleEndian(v, k) else BigEndian(v, k)
  }

  function FromMemory(little: bool, b: seq<Byte>): nat {
    if little then FromLittle(b) else FromBig(b)
  }

  const HALF: int := 0x1_0000_0000
  const WORD: int := 0x1_0000_0000_0000_0000

  /** `htonl` of the C library: the integer that lies in memory in network byte order. */
  function Htonl(little: bool, v: nat): nat {
    FromMemory(little, BigEndian(v, 4))
  }

  /** `ntohl`: the integer whose network byte order lies in memory. */
  function Ntohl(little: bool, v: nat): nat {
    FromBig(InMemory(little, v, 4))
  }

  function Htonll(little: bool, x: nat): nat {
    if little then Htonl(little, x % HALF) * HALF + Htonl(little, x / HALF) else x
  }

  function Ntohll(little: bool, x: nat): nat {
    if little then Ntohl(little, x % HALF) * HALF + Ntohl(little, x / HALF) else x
  }

  lemma {:induction false} FromLittleEndian(v: nat, k: nat)
    requires v < Power256(k)
    ensures FromLittle(LittleEndian(v, k)) == v
  {
    if k > 0 {
      FromLittleEndian(v / 256, k - 1);
      assert LittleEndian(v, k)[1..] == LittleEndian(v / 256, k - 1);
    }
  }

  lemma {:induction false} LittleEndianFrom(b: seq<Byte>)
    ensures FromLittle(b) < Power256(|b|)
    ensures LittleEndian(FromLittle(b), |b|) == b
  {
    if b != [] {
      LittleEndianFrom(b[1..]);
      var v, f := FromLittle(b), FromLittle(b[1..]);
      assert v == b[0] + 256 * f && v / 256 == f && v % 256 == b[0];
      LittleUnfold(v, |b|);
      PowerUnfold(|b|);
      hide LittleEndian, Power256, FromLittle;
    }
  }

  lemma MemoryFrom(little: bool, b: seq<Byte>)
    ensures FromMemory(little, b) < Power256(|b|) && InMemory(little, FromMemory(little, b), |b|) == b
  {
    if little { LittleEndianFrom(b); } else { BigEndianFromBig(b); }
  }

  lemma Powers()
    ensures Power256(4) == HALF && Power256(8) == WORD
  {
    PowerValues();
  }

  lemma ByteOff(low: nat, high: nat, p: nat)
    ensures var v := low + 256 * p * high; v / 256 == low / 256 + p * high && v % 256 == low % 256
    ensures low < 256 * p ==> low / 256 < p
  {
    assert 256 * p * high == 256 * (p * high);
  }

  /** Writing a double word is writing its low half, then its high half. */
  lemma {:induction false} LittleSplit(low: nat, high: nat, j: nat, k: nat)
    requires low < Power256(j)
    ensures LittleEndian(low + Power256(j) * high, j + k) == LittleEndian(low, j) + LittleEndian(high, k)
  {
    if j > 0 {
      PowerUnfold(j);
      hide LittleEndian, Power256;
      var p, v := Power256(j - 1), low + Power256(j) * high;
      ByteOff(low, high, p);
      LittleSplit(low / 256, high, j - 1, k);
      LittleUnfold(v, j + k);
      LittleUnfold(low, j);
    } else {
      assert Power256(0) * high == high;
    }
  }

  lemma LittleUnfold(v: nat, k: nat)
    requires k > 0
    ensures LittleEndian(v, k) == [v % 256] + LittleEndian(v / 256, k - 1)
  {
  }

  lemma {:induction false} BigSplit(v: nat, j: nat, k: nat)
    ensures v / Power256(k) >= 0
    ensures BigEndian(v, j + k) == BigEndian(v / Power256(k), j) + BigEndian(v % Power256(k), k)
  {
    var p := Power256(k);
    if k == 0 {
      assert v / 1 == v;
    } else {
      var q := Power256(k - 1);
      BigSplit(v / 256, j, k - 1);
      Digits(v, q);
      hide BigEndian, Power256;
      assert p == 256 * q by { PowerUnfold(k); }
      BigUnfold(v, j + k);
      BigUnfold(v % p, k);
    }
  }

  lemma PowerUnfold(k: nat)
    requires k > 0
    ensures Power256(k) == 256 * Power256(k - 1)
  {
  }

  lemma BigUnfold(v: nat, k: nat)
    requires k > 0
    ensures BigEndian(v, k) == BigEndian(v / 256, k - 1) + [v % 256]
  {
  }

  lemma Digits(v: nat, q: nat)
    requires q >= 1
    ensures v / 256 / q == v / (256 * q)
    ensures v % (256 * q) / 256 == v / 256 % q && v % (256 * q) % 256 == v % 256
  {
    var a, r := v / 256, v % 256;
    var b, s := a / q, a % q;
    var p := 256 * q;
    assert v == 256 * a + r && a == b * q + s;
    assert 256 * (b * q) == b * p;
    assert v == b * p + (256 * s + r);
    assert 0 <= 256 * s + r < p;
    OneQuotient(v, p, b, 256 * s + r);
  }

  /** After `htonll`, the counter lies in memory most significant byte first, on either kind of host. */
  lemma CounterOnWire(little: bool, x: nat)
    requires x < WORD
    ensures Htonll(little, x) < WORD
    ensures InMemory(little, Htonll(little, x), 8) == BigEndian(x, 8)
  {
    Powers();
    if little {
      BigSplit(x, 4, 4);
      LittleEndianFrom(BigEndian(x / HALF, 4));
      LittleEndianFrom(BigEndian(x % HALF, 4));
      LittleSplit(Htonl(true, x / HALF), Htonl(true, x % HALF), 4, 4);
      hide Power256, LittleEndian, FromLittle, BigEndian;
    }
  }

  /** `ntohll` reads the number whose network byte order lies in memory. */
  lemma CounterFromWire(little: bool, x: nat)
    requires x < WORD
    ensures Ntohll(little, FromMemory(little, BigEndian(x, 8))) == x
  {
    Powers();
    FromBigEndian(x, 8);
    if little {
      BigSplit(x, 4, 4);
      var high, low := BigEndian(x / HALF, 4), BigEndian(x % HALF, 4);
      LittleEndianFrom(high);
      LittleEndianFrom(low);
      FromLittleSplit(high, low);
      FromBigEndian(x / HALF, 4);
      FromBigEndian(x % HALF, 4);
      hide Power256, LittleEndian, FromLittle, BigEndian, FromBig;
      OneQuotient(FromLittle(high + low), HALF, FromLittle(low), FromLittle(high));
    }
  }

  lemma Regroup(p: nat, f: nat)
    ensures 256 * (p * f) == (256 * p) * f
  {
  }

  lemma {:induction false} FromLittleSplit(a: seq<Byte>, b: seq<Byte>)
    ensures FromLittle(a + b) == FromLittle(a) + Power256(|a|) * FromLittle(b)
  {
    if a == [] {
      assert a + b == b;
      assert Power256(0) * FromLittle(b) == FromLittle(b);
    } else {
      assert (a + b)[1..] == a[1..] + b;
      FromLittleSplit(a[1..], b);
      var p, f := Power256(|a| - 1), FromLittle(b);
      assert FromLittle(a + b) == a[0] + 256 * (FromLittle(a[1..]) + p * f);
      assert FromLittle(a) == a[0] + 256 * FromLittle(a[1..]);
      hide FromLittle;
      Regroup(p, f);
    }
  }

  // ---------- text fields ----------

  const TEXT: nat := 100
  const TIME: nat := 32
  const CLIENT: nat := 133
  const SERVER: nat := 149

  function Spaces(n: nat): (s: string)
    ensures |s| == n
  {
    seq(n, i => ' ')
  }

  /** `%-*.*s` with the width as precision: cut, and padded on the right. */
  function Pad(s: string, width: nat): (r: string)
    ensures |r| == width
  {
    var t := Terminated(s);
    if |t| >= width then t[..width] else t + Spaces(width - |t|)
  }

  /** The text fields of `Client_Data`, arrays of 100 and of 32 characters. */
  datatype ClientData = ClientData(message: string, time: string)

  function PackClient(d: ClientData): (b: string)
    ensures |b| == CLIENT
  {
    Pad(d.message, TEXT) + Pad(d.time, TIME) + "\0"
  }

  /** `memcpy`, and a terminator in the last place of each field. */
  function UnpackClient(b: string): (d: ClientData)
    requires |b| == CLIENT
    ensures |d.message| == 100 && |d.time| == 32
  {
    ClientData(b[..TEXT - 1] + "\0", b[TEXT..TEXT + TIME - 1] + "\0")
  }

  /** A padded field that lost its last character to a terminator is padded back, if that was a space. */
  lemma PadAgain(f: string, width: nat)
    requires |f| == width > 0 && (forall i | 0 <= i < width :: f[i] != '\0')
    ensures Pad(f[..width - 1] + "\0", width) == f[..width - 1] + " "
  {
    TerminatedIs(f[..width - 1] + "\0", width - 1);
  }

  /** A text that leaves room for its terminator. */
  predicate Fits(text: string, width: nat) {
    |text| < width && '\0' !in text
  }

  /** The field array that `strcpy` leaves: the text, its terminator, and whatever was there. */
  predicate FieldHolds(field: string, text: string, width: nat) {
    |field| == width && Fits(text, width) && field[..|text|] == text && field[|text|] == '\0'
  }

  lemma PadHeld(field: string, text: string, width: nat)
    requires FieldHolds(field, text, width)
    ensures Pad(field, width) == text + Spaces(width - |text|)
  {
    forall i | 0 <= i < |text| ensures field[i] != '\0' {
      assert field[i] == field[..|text|][i];
      assert text[i] in text;
    }
    TerminatedIs(field, |text|);
  }

  /** What the receiving side holds after one trip: the texts, padded to the last place but one. */
  function Arrived(message: string, time: string): ClientData
    requires Fits(message, TEXT) && Fits(time, TIME)
  {
    ClientData(message + Spaces(TEXT - 1 - |message|) + "\0", time + Spaces(TIME - 1 - |time|) + "\0")
  }

  lemma PackHeld(d: ClientData, message: string, time: string)
    requires FieldHolds(d.message, message, TEXT) && FieldHolds(d.time, time, TIME)
    ensures UnpackClient(PackClient(d)) == Arrived(message, time)
  {
    PadHeld(d.message, message, TEXT);
    PadHeld(d.time, time, TIME);
    var b := PackClient(d);
    assert b[..TEXT - 1] == message + Spaces(TEXT - 1 - |message|);
    assert b[TEXT..TEXT + TIME - 1] == time + Spaces(TIME - 1 - |time|);
  }

  /** The second trip, from the server back, delivers the same fields, byte for byte. */
  lemma PackAgain(message: string, time: string)
    requires Fits(message, TEXT) && Fits(time, TIME)
    ensures UnpackClient(PackClient(Arrived(message, time))) == Arrived(message, time)
  {
    var d := Arrived(message, time);
    var f, g := message + Spaces(TEXT - |message|), time + Spaces(TIME - |time|);
    assert f[..TEXT - 1] == message + Spaces(TEXT - 1 - |message|);
    assert g[..TIME - 1] == time + Spaces(TIME - 1 - |time|);
    forall i | 0 <= i < TEXT ensures f[i] != '\0' { if i < |message| { assert message[i] in message; } }
    forall i | 0 <= i < TIME ensures g[i] != '\0' { if i < |time| { assert time[i] in time; } }
    PadAgain(f, TEXT);
    PadAgain(g, TIME);
    var b := PackClient(d);
    assert b[..TEXT - 1] == f[..TEXT - 1];
    assert b[TEXT..TEXT + TIME - 1] == g[..TIME - 1];
  }

  // ---------- the server's reply ----------

  /** A 64-bit signed integer, and the unsigned one with the same bits. */
  type Int64 = n: int | -0x8000_0000_0000_0000 <= n < 0x8000_0000_0000_0000

  function Unsigned(n: Int64): (u: nat)
    ensures u < WORD
  {
    if n < 0 then n + WORD else n
  }

  function Signed(u: nat): Int64
    requires u < WORD
  {
    if u < 0x8000_0000_0000_0000 then u else u - WORD
  }

  datatype ServerData = ServerData(echo: ClientData, userCount: Int64, totalCount: Int64)

  lemma NtohllBound(little: bool, x: nat)
    requires x < WORD
    ensures Ntohll(little, x) < WORD
  {
    Powers();
    BigEndianFromBig(InMemory(little, x % HALF, 4));
    BigEndianFromBig(InMemory(little, x / HALF, 4));
  }

  /** The eight characters of a counter. */
  function PackCounter(little: bool, n: Int64): (b: string)
    ensures |b| == 8
  {
    ToText(InMemory(little, Htonll(little, Unsigned(n)), 8))
  }

  /** A counter from its eight characters, which are bytes. */
  function UnpackCounter(little: bool, b: string): Int64
    requires |b| == 8 && Latin(b)
  {
    MemoryFrom(little, ToBytes(b));
    Powers();
    var x := FromMemory(little, ToBytes(b));
    NtohllBound(little, x);
    Signed(Ntohll(little, x))
  }

  function PackServer(little: bool, d: ServerData): (b: string)
    ensures |b| == SERVER
  {
    PackClient(d.echo) + PackCounter(little, d.userCount) + PackCounter(little, d.totalCount)
  }

  function UnpackServer(little: bool, b: string): ServerData
    requires |b| == SERVER && Latin(b[CLIENT..])
  {
    ServerData(UnpackClient(b[..CLIENT]), UnpackCounter(little, b[CLIENT..CLIENT + 8]),
      UnpackCounter(little, b[CLIENT + 8..]))
  }

  /** A 64-bit counter survives, whatever the byte orders of the two hosts. */
  lemma CounterSurvives(writer: bool, reader: bool, n: Int64)
    ensures Latin(PackCounter(writer, n)) && UnpackCounter(reader, PackCounter(writer, n)) == n
  {
    CounterOnWire(writer, Unsigned(n));
    CounterFromWire(reader, Unsigned(n));
    hide InMemory, FromMemory, Htonll, Ntohll;
    var bytes := BigEndian(Unsigned(n), 8);
    assert ToBytes(ToText(bytes)) == bytes;
  }

  /** The whole exchange, the two hosts of either byte order: the client gets its own texts and both counters
      back. */
  lemma ExchangeKeepsAll(client: bool, server: bool, sent: ClientData, message: string, time: string,
                         user: Int64, total: Int64)
    requires FieldHolds(sent.message, message, TEXT) && FieldHolds(sent.time, time, TIME)
    ensures var seen := UnpackClient(PackClient(sent));
      var b := PackServer(server, ServerData(seen, user, total));
      && seen == Arrived(message, time)
      && Latin(b[CLIENT..])
      && UnpackServer(client, b) == ServerData(Arrived(message, time), user, total)
  {
    PackHeld(sent, message, time);
    PackAgain(message, time);
    CounterSurvives(server, client, user);
    CounterSurvives(server, client, total);
    hide PackClient, UnpackClient, PackCounter, UnpackCounter, Arrived;
    var text := PackClient(Arrived(message, time));
    var u, t := PackCounter(server, user), PackCounter(server, total);
    var b := text + u + t;
    assert b[..CLIENT] == text && b[CLIENT..CLIENT + 8] == u && b[CLIENT + 8..] == t;
    assert b[CLIENT..] == u + t;
  }

  /** The 149 bytes of a reply: the message and the time, padded with spaces, a NUL, and the two counters in
      two's complement, most significant byte first. */
  lemma ReplyLayout(little: bool, d: ServerData, message: string, time: string)
    requires |message| < 100 && '\0' !in message && |d.echo.message| == 100
    requires d.echo.message[..|message|] == message && d.echo.message[|message|] == '\0'
    requires |time| < 32 && '\0' !in time && |d.echo.time| == 32
    requires d.echo.time[..|time|] == time && d.echo.time[|time|] == '\0'
    ensures var b := PackServer(little, d);
      var u, t := b[133..141], b[141..149];
      && |b| == 149 && b[132] == '\0'
      && (forall i | 0 <= i < 100 :: b[i] == if i < |message| then message[i] else ' ')
      && (forall i | 0 <= i < 32 :: b[100 + i] == if i < |time| then time[i] else ' ')
      && (forall i | 0 <= i < 8 :: CounterByte(u[i], d.userCount, i) && CounterByte(t[i], d.totalCount, i))
  {
    PadHeld(d.echo.message, message, TEXT);
    PadHeld(d.echo.time, time, TIME);
    forall i | 0 <= i < 8
      ensures CounterByte(PackCounter(little, d.userCount)[i], d.userCount, i)
      ensures CounterByte(PackCounter(little, d.totalCount)[i], d.totalCount, i)
    {
      PackCounterAt(little, d.userCount, i);
      PackCounterAt(little, d.totalCount, i);
    }
    hide PackCounter, CounterByte;
    var b := PackServer(little, d);
    assert b[133..141] == PackCounter(little, d.userCount) && b[141..149] == PackCounter(little, d.totalCount);
  }

  /** Byte `i` of eight of `n`, counted from the most significant. */
  ghost predicate CounterByte(c: char, n: Int64, i: nat)
    requires i < 8
  {
    c as int == (if n < 0 then n + 0x1_0000_0000_0000_0000 else n) / Power256(7 - i) % 256
  }

  lemma PackCounterAt(little: bool, n: Int64, i: nat)
    requires i < 8
    ensures CounterByte(PackCounter(little, n)[i], n, i)
  {
    CounterOnWire(little, Unsigned(n));
    BigEndianAt(Unsigned(n), 8, i);
    hide InMemory, Htonll, BigEndian, Power256;
  }

  /** What the receiver then holds of the texts. */
  lemma ArrivedIs(message: string, time: string)
    requires Fits(message, TEXT) && Fits(time, TIME)
    ensures var a := Arrived(message, time);
      && |a.message| == 100 && |a.time| == 32
      && (forall i | 0 <= i < 100 :: a.message[i] == if i < |message| then message[i] else if i < 99 then ' ' else '\0')
      && (forall i | 0 <= i < 32 :: a.time[i] == if i < |time| then time[i] else if i < 31 then ' ' else '\0')
  {
  }

  // ---------- the buffers ----------

  /** `Client_Data`. */
  class ClientRecord {
    const message: array<char>
    const time: array<char>

    constructor ()
      ensures fresh(message) && fresh(time) && message != time && message.Length == TEXT && time.Length == TIME
    {
      message := new char[TEXT];
      time := new char[TIME];
    }

    ghost predicate Valid() {
      message.Length == TEXT && time.Length == TIME && message != time
    }

    ghost function View(): (d: ClientData)
      reads message, time
      ensures d.message == message[..] && d.time == time[..]
    {
      ClientData(message[..], time[..])
    }
  }

  /** `Server_Data`. */
  class ServerRecord {
    const echo: ClientRecord
    var userCount: Int64
    var totalCount: Int64

    constructor (echo: ClientRecord)
      ensures this.echo == echo
    {
      this.echo := echo;
      userCount, totalCount := 0, 0;
    }

    ghost function View(): (d: ServerData)
      reads this, echo.message, echo.time
      ensures d.echo == echo.View() && d.userCount == userCount && d.totalCount == totalCount
    {
      ServerData(echo.View(), userCount, totalCount)
    }
  }

  lemma TerminatedPrefix(s: string, n: nat)
    requires n <= |s| && forall i | 0 <= i < n :: s[i] != '\0'
    ensures n <= |Terminated(s)| && Terminated(s)[..n] == s[..n]
    ensures n < |s| && s[n] == '\0' ==> Terminated(s) == s[..n]
    ensures n == |s| ==> Terminated(s) == s
  {
    if n > 0 {
      TerminatedPrefix(s[1..], n - 1);
      assert s[..n] == [s[0]] + s[1..][..n - 1];
      assert Terminated(s) == [s[0]] + Terminated(s[1..]);
      assert Terminated(s)[..n] == [s[0]] + Terminated(s[1..])[..n - 1];
    }
  }

  /** One field of the format `%-*.*s%-*.*s`: the field's characters up to its terminator, then spaces. */
  method PrintPadded(field: array<char>, buffer: array<char>, at: nat)
    requires field != buffer && at + field.Length <= buffer.Length
    modifies buffer
    ensures buffer[at..at + field.Length] == Pad(field[..], field.Length)
    ensures forall k | 0 <= k < buffer.Length && !(at <= k < at + field.Length) :: buffer[k] == old(buffer[k])
  {
    var width := field.Length;
    var n := 0;
    while n < width && field[n] != '\0'
      invariant 0 <= n <= width
      invariant forall k | 0 <= k < n :: field[k] != '\0' && buffer[at + k] == field[k]
      invariant forall k | 0 <= k < buffer.Length && !(at <= k < at + n) :: buffer[k] == old(buffer[k])
    {
      buffer[at + n] := field[n];
      n := n + 1;
    }
    TerminatedPrefix(field[..], n);
    var m := n;
    while m < width
      invariant n <= m <= width
      invariant forall k | 0 <= k < n :: buffer[at + k] == field[k]
      invariant forall k | at + n <= k < at + m :: buffer[k] == ' '
      invariant forall k | 0 <= k < buffer.Length && !(at <= k < at + m) :: buffer[k] == old(buffer[k])
    {
      buffer[at + m] := ' ';
      m := m + 1;
    }
    ghost var p := Pad(field[..], width);
    forall k | 0 <= k < width ensures buffer[at..at + width][k] == p[k] {
      assert buffer[at..at + width][k] == buffer[at + k];
    }
  }

  method PackClientData(data: ClientRecord, buffer: array<char>)
    requires data.Valid() && buffer != data.message && buffer != data.time && buffer.Length >= CLIENT
    modifies buffer
    ensures buffer[..CLIENT] == PackClient(data.View())
    ensures forall k | CLIENT <= k < buffer.Length :: buffer[k] == old(buffer[k])
  {
    hide Pad;
    PrintPadded(data.message, buffer, 0);
    ghost var first := buffer[0..TEXT];
    PrintPadded(data.time, buffer, TEXT);
    assert buffer[0..TEXT] == first;
    ghost var second := buffer[TEXT..TEXT + TIME];
    buffer[TEXT + TIME] := '\0';
    assert buffer[..CLIENT] == first + second + "\0";
  }

  method UnpackClientData(data: ClientRecord, buffer: array<char>)
    requires data.Valid() && buffer != data.message && buffer != data.time && buffer.Length >= CLIENT
    modifies data.message, data.time
    ensures data.View() == UnpackClient(buffer[..CLIENT])
  {
    Copy(buffer, 0, data.message, 0, TEXT);
    data.message[TEXT - 1] := '\0';
    Copy(buffer, TEXT, data.time, 0, TIME);
    data.time[TIME - 1] := '\0';
    ghost var b := buffer[..CLIENT];
    assert data.message[..] == b[..TEXT - 1] + "\0";
    assert data.time[..] == b[TEXT..TEXT + TIME - 1] + "\0";
  }

  /** `memcpy` of a counter. */
  method WriteText(text: string, buffer: array<char>, at: nat)
    requires at + |text| <= buffer.Length
    modifies buffer
    ensures buffer[at..at + |text|] == text
    ensures forall k | 0 <= k < buffer.Length && !(at <= k < at + |text|) :: buffer[k] == old(buffer[k])
  {
    forall k | 0 <= k < |text| {
      buffer[at + k] := text[k];
    }
  }

  method PackServerData(little: bool, data: ServerRecord, buffer: array<char>)
    requires data.echo.Valid() && buffer != data.echo.message && buffer != data.echo.time && buffer.Length >= SERVER
    modifies buffer
    ensures buffer[..SERVER] == PackServer(little, data.View())
  {
    hide PackClient, PackCounter;
    PackClientData(data.echo, buffer);
    ghost var text := buffer[..CLIENT];
    WriteText(PackCounter(little, data.userCount), buffer, CLIENT);
    ghost var user := buffer[CLIENT..CLIENT + 8];
    WriteText(PackCounter(little, data.totalCount), buffer, CLIENT + 8);
    assert buffer[..CLIENT] == text && buffer[CLIENT..CLIENT + 8] == user;
    assert buffer[..SERVER] == buffer[..CLIENT] + buffer[CLIENT..CLIENT + 8] + buffer[CLIENT + 8..SERVER];
  }

  method UnpackServerData(little: bool, data: ServerRecord, buffer: array<char>)
    requires data.echo.Valid() && buffer != data.echo.message && buffer != data.echo.time && buffer.Length >= SERVER
    requires Latin(buffer[CLIENT..SERVER])
    modifies data, data.echo.message, data.echo.time
    ensures Latin(buffer[..SERVER][CLIENT..]) && data.View() == UnpackServer(little, buffer[..SERVER])
  {
    hide UnpackClient, UnpackCounter;
    UnpackClientData(data.echo, buffer);
    ghost var b := buffer[..SERVER];
    assert b[CLIENT..] == buffer[CLIENT..SERVER] && b[..CLIENT] == buffer[..CLIENT];
    assert b[CLIENT..CLIENT + 8] == b[CLIENT..][..8] && b[CLIENT + 8..] == b[CLIENT..][8..];
    assert Latin(b[CLIENT..CLIENT + 8]) && Latin(b[CLIENT + 8..]);
    assert buffer[CLIENT..CLIENT + 8] == b[CLIENT..CLIENT + 8] && buffer[CLIENT + 8..SERVER] == b[CLIENT + 8..];
    hide Latin;
    data.userCount := UnpackCounter(little, buffer[CLIENT..CLIENT + 8]);
    data.totalCount := UnpackCounter(little, buffer[CLIENT + 8..SERVER]);
  }

  // ---------- trim ----------

  /** The text without the spaces and NULs at its end. */
  function Trimmed(s: string): string {
    if s != "" && (s[|s| - 1] == ' ' || s[|s| - 1] == '\0') then Trimmed(s[..|s| - 1]) else s
  }

  lemma {:induction false} TrimmedPrefix(s: string)
    ensures |Trimmed(s)| <= |s| && Trimmed(s) == s[..|Trimmed(s)|]
    ensures forall i | |Trimmed(s)| <= i < |s| :: s[i] == ' ' || s[i] == '\0'
    ensures Trimmed(s) != "" ==> var c := Trimmed(s)[|Trimmed(s)| - 1]; c != ' ' && c != '\0'
  {
    if s != "" && (s[|s| - 1] == ' ' || s[|s| - 1] == '\0') {
      TrimmedPrefix(s[..|s| - 1]);
    }
  }

  lemma TrimmedIs(s: string, n: nat)
    requires n <= |s| && (forall i | n <= i < |s| :: s[i] == ' ' || s[i] == '\0')
    requires n > 0 ==> s[n - 1] != ' ' && s[n - 1] != '\0'
    ensures Trimmed(s) == s[..n]
  {
    TrimmedPrefix(s);
    LastKept(s);
  }

  lemma LastKept(s: string)
    ensures var t := Trimmed(s); t != "" ==> |t| <= |s| && t[|t| - 1] == s[|t| - 1]
  {
    TrimmedPrefix(s);
  }

  /** What comes of `trim`: the text it returns, or the array that it leaves: the field at its front, when the
      scan finds nothing to keep, or the result at its end, when there is no place for the terminator. */
  datatype Trimming = Returned(text: string) | PastFront | PastEnd

  function TrimOf(s: string): Trimming {
    var t := Trimmed(s);
    if t == "" then PastFront else if |t| >= TEXT then PastEnd else Returned(t)
  }

  /** For a field of 100 characters: what is cut off are spaces and NULs, up to the last other character; if that is
      the field's last one there is no place left for the terminator. */
  lemma TrimIs(s: string)
    requires |s| == 100
    ensures match TrimOf(s)
      case Returned(text) =>
        && 0 < |text| < 100 && text == s[..|text|] && s[|text| - 1] !in " \0"
        && forall i | |text| <= i < 100 :: s[i] in " \0"
      case PastFront => forall i | 0 <= i < 100 :: s[i] in " \0"
      case PastEnd => s[99] !in " \0"
  {
    TrimmedPrefix(s);
    LastKept(s);
    hide Trimmed;
  }

  /** The scan stays inside the array if and only if there is a character to keep. */
  lemma ScanStaysInside(s: string)
    ensures TrimOf(s) != PastFront <==> exists i :: 0 <= i < |s| && s[i] != ' ' && s[i] != '\0'
  {
    TrimmedPrefix(s);
    LastKept(s);
    hide Trimmed;
    var t := Trimmed(s);
    if t != "" { assert s[|t| - 1] != ' ' && s[|t| - 1] != '\0'; }
  }

  /** `trim`, up to the place where it leaves an array; then there is no result. */
  method Trim(arr: array<char>) returns (res: array?<char>)
    requires arr.Length == TEXT
    ensures res == null <==> !TrimOf(arr[..]).Returned?
    ensures res != null ==>
      && fresh(res) && res.Length == TEXT
      && var text := TrimOf(arr[..]).text; |text| < TEXT && res[..|text|] == text && res[|text|] == '\0'
  {
    ghost var s := arr[..];
    var i := TEXT - 1;
    while i >= 0 && (arr[i] == ' ' || arr[i] == '\0')
      invariant -1 <= i < TEXT
      invariant forall k | i < k < TEXT :: arr[k] == ' ' || arr[k] == '\0'
    {
      i := i - 1;
    }
    TrimmedIs(s, i + 1);
    hide Trimmed;
    if i < 0 || i + 1 == TEXT {
      return null;
    }
    var kept := new char[TEXT];
    var j := 0;
    while j <= i
      invariant 0 <= j <= i + 1
      invariant forall k | 0 <= k < j :: kept[k] == arr[k]
    {
      kept[j] := arr[j];
      j := j + 1;
    }
    kept[j] := '\0';
    assert kept[..j] == s[..j];
    res := kept;
  }

  /** Spaces and NULs behind a text change nothing. */
  lemma TrimmedBehind(s: string, text: string)
    requires |text| <= |s| && s[..|text|] == text
    requires forall i | |text| <= i < |s| :: s[i] == ' ' || s[i] == '\0'
    ensures Trimmed(s) == Trimmed(text)
  {
    TrimmedPrefix(text);
    LastKept(text);
    hide Trimmed;
    var n := |Trimmed(text)|;
    forall i | n <= i < |s| ensures s[i] == ' ' || s[i] == '\0' {
      if i < |text| { assert s[i] == text[i]; }
    }
    if n > 0 { assert text[n - 1] == s[n - 1]; }
    TrimmedIs(s, n);
    assert s[..n] == text[..n];
  }

  /** `trim` of what arrived, for every message. It returns the message if and only if that is neither empty
      nor ends in a space; else the message without its trailing spaces, unless nothing is left of it: for an
      empty message, or one of spaces alone, it leaves the field at its front. */
  lemma TrimExactly(message: string, time: string)
    requires Fits(message, TEXT) && Fits(time, TIME)
    ensures var r := TrimOf(Arrived(message, time).message);
      && (r == Returned(message) <==> message != "" && message[|message| - 1] != ' ')
      && (r == PastFront <==> forall i | 0 <= i < |message| :: message[i] == ' ')
      && (r == PastFront || r == Returned(Trimmed(message)))
  {
    ArrivedBehind(message, time);
    TrimmedBehind(Arrived(message, time).message, message);
    hide Arrived;
    TrimmedPrefix(message);
    ScanStaysInside(message);
    forall i | 0 <= i < |message| ensures message[i] != '\0' {
      assert message[i] in message;
    }
    if message != "" && message[|message| - 1] == ' ' {
      TrimmedPrefix(message[..|message| - 1]);
    }
  }

  /** The client sends an empty line when nothing but Enter is pressed, and both sides trim it. */
  lemma EmptyMessageLeaves(time: string)
    requires Fits(time, TIME)
    ensures Fits("", TEXT) && TrimOf(Arrived("", time).message) == PastFront
  {
    TrimExactly("", time);
  }

  lemma ArrivedBehind(message: string, time: string)
    requires Fits(message, TEXT) && Fits(time, TIME)
    ensures var s := Arrived(message, time).message;
      && |message| <= |s| && s[..|message|] == message
      && forall i | |message| <= i < |s| :: s[i] == ' ' || s[i] == '\0'
  {
  }

  // ---------- sendall and recvall ----------

  /** One direction of a connection: every byte given to it, and how many have been taken from it. */
  class Stream {
    var bytes: seq<Byte>
    var taken: nat

    constructor ()
      ensures Valid() && bytes == [] && taken == 0
    {
      bytes, taken := [], 0;
    }

    predicate Valid()
      reads this
    {
      taken <= |bytes|
    }

    /** `send` takes any part of the data, at least a byte, or fails. */
    method Send(data: seq<Byte>) returns (r: int)
      requires Valid()
      modifies this`bytes
      ensures Valid() && r <= |data|
      ensures bytes == old(bytes) + if r > 0 then data[..r] else []
    {
      r :| r <= |data|;
      if r > 0 {
        bytes := bytes + data[..r];
      }
    }

    /** `recv` hands over any part of what has come in, at most `n` bytes; 0 or less at the end or on error.
        The other side may have sent more meanwhile. */
    method Recv(buffer: array<Byte>, at: nat, n: nat) returns (r: int)
      requires Valid() && at + n <= buffer.Length
      modifies this, buffer
      ensures Valid() && old(bytes) <= bytes && r <= n
      ensures r <= 0 ==> taken == old(taken)
      ensures r > 0 ==> taken == old(taken) + r
      ensures forall k | 0 <= k < buffer.Length ::
                buffer[k] == if at <= k < at + r then bytes[old(taken) + k - at] else old(buffer[k])
    {
      var more: seq<Byte> := *;
      bytes := bytes + more;
      r :| r <= n && taken + r <= |bytes|;
      if r > 0 {
        forall k | 0 <= k < r {
          buffer[at + k] := bytes[taken + k];
        }
        taken := taken + r;
      }
    }

    /** The whole buffer, in however many pieces; or -1, and then a part of it. */
    method SendAll(data: seq<Byte>) returns (sent: int)
      requires Valid()
      modifies this`bytes
      ensures Valid() && (sent == -1 || sent == |data|)
      ensures sent >= 0 ==> bytes == old(bytes) + data
      ensures sent < 0 ==> old(bytes) <= bytes && bytes < old(bytes) + data
    {
      sent := 0;
      while sent < |data|
        invariant 0 <= sent <= |data| && Valid()
        invariant bytes == old(bytes) + data[..sent]
      {
        var r := Send(data[sent..]);
        if r <= 0 {
          return -1;
        }
        assert data[..sent] + data[sent..][..r] == data[..sent + r];
        sent := sent + r;
      }
      assert data[..sent] == data;
    }

    /** The next `n` bytes of the stream, however they come in; or 0 or -1, and then nothing is promised of
        the buffer. */
    method RecvAll(buffer: array<Byte>, n: nat) returns (received: int)
      requires Valid() && n <= buffer.Length
      modifies this, buffer
      ensures Valid() && old(bytes) <= bytes && (received == -1 || received == 0 || received == n)
      ensures received > 0 ==> taken == old(taken) + n && buffer[..n] == bytes[old(taken)..taken]
    {
      received := 0;
      while received < n
        invariant 0 <= received <= n && Valid() && old(bytes) <= bytes
        invariant taken == old(taken) + received
        invariant forall k | 0 <= k < received :: buffer[k] == bytes[old(taken) + k]
      {
        var r := Recv(buffer, received, n - received);
        if r == 0 {
          return 0;
        } else if r < 0 {
          return -1;
        } else {
          received := received + r;
        }
      }
    }
  }

  // ---------- both sides, piece by piece ----------

  type Buffer = seq<Byte>

  function Concat(bs: seq<Buffer>): seq<Byte> {
    if bs == [] then [] else Concat(bs[..|bs| - 1]) + bs[|bs| - 1]
  }

  /** The buffers whose `sendall` has begun, the bytes that the sender's kernel has taken and the receiver's
      handed over; the buffers that `recvall` has returned and the part it is at. */
  datatype Wire = Wire(sent: seq<Buffer>, out: nat, taken: nat, got: seq<Buffer>, part: Buffer)

  datatype Step = Begin(b: Buffer) | SendPart(r: nat) | RecvPart(r: nat)

  /** The sender begins with a buffer when it is through with the last; both sides move any number of bytes. */
  ghost predicate Enabled(w: Wire, size: nat, step: Step) {
    match step
    case Begin(b) => w.out == |Concat(w.sent)| && |b| == size
    case SendPart(r) => 1 <= r && w.out + r <= |Concat(w.sent)|
    case RecvPart(r) => 1 <= r <= size - |w.part| && w.taken + r <= w.out <= |Concat(w.sent)|
  }

  ghost function Next(w: Wire, size: nat, step: Step): Wire
    requires Enabled(w, size, step)
  {
    match step
    case Begin(b) => w.(sent := w.sent + [b])
    case SendPart(r) => w.(out := w.out + r)
    case RecvPart(r) =>
      var part := w.part + Concat(w.sent)[w.taken..w.taken + r];
      if |part| == size then w.(taken := w.taken + r, got := w.got + [part], part := [])
      else w.(taken := w.taken + r, part := part)
  }

  /** Where block `k` of the stream begins. */
  function Base(k: nat, size: nat): nat {
    k * size
  }

  lemma BaseNext(k: nat, size: nat)
    ensures Base(k + 1, size) == Base(k, size) + size
  {
  }

  /** The buffers received are the first ones sent, and the part is the beginning of the next. */
  ghost predicate WireOk(w: Wire, size: nat) {
    && size > 0 && Sized(w.sent, size)
    && w.taken <= w.out <= |Concat(w.sent)|
    && |w.part| < size && w.taken == Base(|w.got|, size) + |w.part|
    && w.part == Concat(w.sent)[w.taken - |w.part|..w.taken]
    && w.got <= w.sent
  }

  ghost predicate Sized(bs: seq<Buffer>, size: nat) {
    forall i | 0 <= i < |bs| :: |bs[i]| == size
  }

  lemma {:induction false} ConcatLength(bs: seq<Buffer>, size: nat)
    requires Sized(bs, size)
    ensures |Concat(bs)| == |bs| * size
  {
    if bs != [] {
      ConcatLength(bs[..|bs| - 1], size);
      assert |bs| * size == (|bs| - 1) * size + size;
    }
  }

  lemma Product(k: nat, n: nat, size: nat)
    requires k <= n
    ensures k * size <= n * size
  {
  }

  /** The `k`-th block of the stream is the `k`-th buffer. */
  lemma {:induction false} BlockAt(bs: seq<Buffer>, size: nat, k: nat)
    requires Sized(bs, size) && k < |bs|
    ensures Base(k, size) + size <= |Concat(bs)| && Concat(bs)[Base(k, size)..Base(k, size) + size] == bs[k]
  {
    var front := bs[..|bs| - 1];
    ConcatLength(bs, size);
    ConcatLength(front, size);
    var c := Concat(front);
    if k == |bs| - 1 {
      assert (c + bs[k])[|c|..|c| + size] == bs[k];
    } else {
      BlockAt(front, size, k);
      assert (c + bs[|bs| - 1])[k * size..k * size + size] == c[k * size..k * size + size];
    }
  }

  lemma BlockNext(bs: seq<Buffer>, size: nat, k: nat)
    requires size > 0 && Sized(bs, size) && Base(k, size) + size <= |Concat(bs)|
    ensures k < |bs| && Concat(bs)[Base(k, size)..Base(k, size) + size] == bs[k]
  {
    ConcatLength(bs, size);
    if k >= |bs| {
      Product(|bs|, k, size);
    }
    BlockAt(bs, size, k);
  }

  lemma ConcatMore(bs: seq<Buffer>, b: Buffer)
    ensures Concat(bs + [b]) == Concat(bs) + b
  {
    assert (bs + [b])[..|bs|] == bs;
  }

  lemma PartGrows(stream: seq<Byte>, from: nat, m: nat, r: nat)
    requires from <= m && m + r <= |stream|
    ensures stream[from..m] + stream[m..m + r] == stream[from..m + r]
  {
  }

  lemma RecvOk(w: Wire, size: nat, r: nat)
    requires WireOk(w, size) && Enabled(w, size, RecvPart(r))
    ensures WireOk(Next(w, size, RecvPart(r)), size)
  {
    hide Concat, Sized, Base;
    var stream := Concat(w.sent);
    var from := w.taken - |w.part|;
    PartGrows(stream, from, w.taken, r);
    if |w.part| + r == size {
      BlockNext(w.sent, size, |w.got|);
      BaseNext(|w.got|, size);
      assert stream[from..from + size] == w.sent[|w.got|];
      assert stream[w.taken + r..w.taken + r] == [];
    }
  }

  lemma StepOk(w: Wire, size: nat, step: Step)
    requires WireOk(w, size) && Enabled(w, size, step)
    ensures WireOk(Next(w, size, step), size)
  {
    hide Concat;
    match step
    case Begin(b) =>
      ConcatMore(w.sent, b);
      assert Concat(w.sent + [b])[w.taken - |w.part|..w.taken] == w.part;
    case SendPart(r) =>
    case RecvPart(r) =>
      hide WireOk, Next;
      RecvOk(w, size, r);
  }

  ghost predicate Runs(w: Wire, size: nat, steps: seq<Step>, last: Wire)
    decreases |steps|
  {
    if steps == [] then last == w
    else Enabled(w, size, steps[0]) && Runs(Next(w, size, steps[0]), size, steps[1..], last)
  }

  /** Whatever the pieces and however the two sides interleave, the k-th buffer that `recvall` returns is the
      k-th that `sendall` was given. */
  lemma {:induction false} RunOk(w: Wire, size: nat, steps: seq<Step>, last: Wire)
    requires WireOk(w, size) && Runs(w, size, steps, last)
    ensures WireOk(last, size)
    ensures |last.got| <= |last.sent| && forall k | 0 <= k < |last.got| :: last.got[k] == last.sent[k]
    decreases |steps|
  {
    if steps != [] {
      StepOk(w, size, steps[0]);
      hide WireOk, Enabled, Next;
      RunOk(Next(w, size, steps[0]), size, steps[1..], last);
    }
  }

  /** When everything sent has been taken, everything sent has been received. */
  lemma AllGot(w: Wire, size: nat)
    requires WireOk(w, size) && w.taken == |Concat(w.sent)|
    ensures w.got == w.sent
  {
    ConcatLength(w.sent, size);
    if |w.got| < |w.sent| {
      Product(|w.got| + 1, |w.sent|, size);
    }
  }

  /** From the start: what has been received is what was sent first, and all of it once all bytes are taken. */
  lemma RunFromStart(size: nat, steps: seq<Step>, last: Wire)
    requires size > 0 && Runs(Wire([], 0, 0, [], []), size, steps, last)
    ensures last.got <= last.sent && (last.taken == |Concat(last.sent)| ==> last.got == last.sent)
  {
    RunOk(Wire([], 0, 0, [], []), size, steps, last);
    if last.taken == |Concat(last.sent)| {
      AllGot(last, size);
    }
  }

  // ---------- nothing need be lost ----------

  function Sum(rs: seq<nat>): nat {
    if rs == [] then 0 else rs[0] + Sum(rs[1..])
  }

  function Sends(rs: seq<nat>): (steps: seq<Step>)
    ensures |steps| == |rs| && forall i | 0 <= i < |rs| :: steps[i] == SendPart(rs[i])
  {
    seq(|rs|, i requires 0 <= i < |rs| => SendPart(rs[i]))
  }

  function Recvs(rs: seq<nat>): (steps: seq<Step>)
    ensures |steps| == |rs| && forall i | 0 <= i < |rs| :: steps[i] == RecvPart(rs[i])
  {
    seq(|rs|, i requires 0 <= i < |rs| => RecvPart(rs[i]))
  }

  lemma {:induction false} SendsRun(w: Wire, size: nat, rs: seq<nat>)
    requires (forall i | 0 <= i < |rs| :: rs[i] > 0) && w.out + Sum(rs) <= |Concat(w.sent)|
    ensures Runs(w, size, Sends(rs), w.(out := w.out + Sum(rs)))
    decreases |rs|
  {
    if rs != [] {
      hide Concat;
      assert Sends(rs)[0] == SendPart(rs[0]) && Sends(rs)[1..] == Sends(rs[1..]);
      SendsRun(Next(w, size, SendPart(rs[0])), size, rs[1..]);
    }
  }

  lemma {:induction false} RecvsRun(w: Wire, size: nat, rs: seq<nat>)
    requires rs != [] && (forall i | 0 <= i < |rs| :: rs[i] > 0) && |w.part| + Sum(rs) == size
    requires w.taken + Sum(rs) <= w.out <= |Concat(w.sent)|
    ensures var block := w.part + Concat(w.sent)[w.taken..w.taken + Sum(rs)];
      Runs(w, size, Recvs(rs), w.(taken := w.taken + Sum(rs), got := w.got + [block], part := []))
    decreases |rs|
  {
    var stream, r, rest := Concat(w.sent), rs[0], rs[1..];
    assert Recvs(rs)[0] == RecvPart(r) && Recvs(rs)[1..] == Recvs(rest);
    assert rest == [] ==> Sum(rest) == 0 && Recvs(rest) == [];
    assert rest != [] ==> Sum(rest) == rest[0] + Sum(rest[1..]);
    hide Concat, Sum, Recvs;
    var w1 := Next(w, size, RecvPart(r));
    RecvNext(w, size, r);
    hide Next;
    if rest != [] {
      RecvsRun(w1, size, rest);
      PartGrows(stream, w.taken, w.taken + r, Sum(rest));
      Regrouped(w.part, stream[w.taken..w.taken + r], stream[w.taken + r..w.taken + r + Sum(rest)]);
    }
  }

  lemma RecvNext(w: Wire, size: nat, r: nat)
    requires Enabled(w, size, RecvPart(r))
    ensures var part := w.part + Concat(w.sent)[w.taken..w.taken + r];
      Next(w, size, RecvPart(r)) == if |part| == size then w.(taken := w.taken + r, got := w.got + [part], part := [])
                                    else w.(taken := w.taken + r, part := part)
  {
  }

  lemma Regrouped(a: seq<Byte>, b: seq<Byte>, c: seq<Byte>)
    ensures a + b + c == a + (b + c)
  {
  }

  lemma {:induction false} RunsJoin(w: Wire, size: nat, steps: seq<Step>, mid: Wire, more: seq<Step>, last: Wire)
    requires Runs(w, size, steps, mid) && Runs(mid, size, more, last)
    ensures Runs(w, size, steps + more, last)
    decreases |steps|
  {
    if steps == [] {
      assert steps + more == more;
    } else {
      hide Enabled, Next;
      assert (steps + more)[0] == steps[0] && (steps + more)[1..] == steps[1..] + more;
      RunsJoin(Next(w, size, steps[0]), size, steps[1..], mid, more, last);
    }
  }

  /** Whenever nothing is under way the next buffer can be sent in pieces of any sizes and received in pieces of any
      other, and arrives. */
  lemma PiecesArrive(sent: seq<Buffer>, size: nat, b: Buffer, outs: seq<nat>, ins: seq<nat>)
    requires size > 0 && Sized(sent, size) && |b| == size && Sum(outs) == size && Sum(ins) == size
    requires (forall i | 0 <= i < |outs| :: outs[i] > 0) && (forall i | 0 <= i < |ins| :: ins[i] > 0)
    ensures var n := |Concat(sent)|;
      Runs(Wire(sent, n, n, sent, []), size, [Begin(b)] + (Sends(outs) + Recvs(ins)),
        Wire(sent + [b], n + size, n + size, sent + [b], []))
  {
    ConcatMore(sent, b);
    hide Concat;
    var n := |Concat(sent)|;
    var w0 := Wire(sent, n, n, sent, []);
    var w1 := Wire(sent + [b], n, n, sent, []);
    var w2 := Wire(sent + [b], n + size, n, sent, []);
    var w3 := Wire(sent + [b], n + size, n + size, sent + [b], []);
    SendsRun(w1, size, outs);
    assert ins != [] by { assert Sum([]) == 0; }
    RecvsRun(w2, size, ins);
    assert [] + Concat(w2.sent)[n..n + size] == b;
    hide Sum, Sends, Recvs;
    RunsJoin(w1, size, Sends(outs), w2, Recvs(ins), w3);
    assert ([Begin(b)] + (Sends(outs) + Recvs(ins)))[1..] == Sends(outs) + Recvs(ins);
    assert Next(w0, size, Begin(b)) == w1;
  }
}
