/** The buffered stream library of 14-1-26/8-4.c.

    A stream's logical state is the file as an unbuffered program would see it: its contents and
    the position of the next byte.  Each operation is proved to do to the logical state what the
    byte-at-a-time operation does, whatever the buffer holds and however short the reads are. */
module Stdio {
  import opened Bytes
  import opened Options

  const EOF: int := -1
  const BUFSIZ: nat := 1024
  const SEEK_SET: int := 0
  const SEEK_CUR: int := 1
  const SEEK_END: int := 2

  /** An open file: its bytes and the descriptor's offset. */
  datatype File = File(content: seq<Byte>, pos: nat)

  /** The `char` an int is stored as, and the int a (signed) `char` is read back as. */
  function ToByte(x: int): Byte {
    x % 256
  }

  function SignedChar(b: Byte): int {
    if b < 128 then b else b - 256
  }

  // ---------- unbuffered files ----------

  /** `content` padded with zero bytes up to `pos`. */
  function Padded(content: seq<Byte>, pos: nat): (r: seq<Byte>)
    ensures |r| == if pos <= |content| then |content| else pos
    ensures forall i | 0 <= i < |r| :: r[i] == if i < |content| then content[i] else 0
  {
    if pos <= |content| then content else content + seq(pos - |content|, i => 0)
  }

  /** write(2) at an offset: overwrites, extends, fills a gap with zeros. */
  function WriteAt(content: seq<Byte>, pos: nat, bs: seq<Byte>): (r: seq<Byte>)
    ensures bs == [] ==> r == content
    ensures bs != [] ==>
      && |r| == (if pos + |bs| <= |content| then |content| else pos + |bs|)
      && forall i | 0 <= i < |r| ::
        r[i] == if pos <= i < pos + |bs| then bs[i - pos] else if i < |content| then content[i] else 0
  {
    if bs == [] then content
    else
      var p := Padded(content, pos);
      if pos + |bs| <= |p| then p[..pos] + bs + p[pos + |bs|..] else p[..pos] + bs
  }

  function Write(f: File, bs: seq<Byte>): File {
    File(WriteAt(f.content, f.pos, bs), f.pos + |bs|)
  }

  lemma WriteNothing(f: File)
    ensures Write(f, []) == f
  {
  }

  /** The byte at the offset, or EOF; and the file afterwards. */
  function ReadByte(f: File): int {
    if f.pos < |f.content| then f.content[f.pos] else EOF
  }

  function AfterRead(f: File): File {
    if f.pos < |f.content| then f.(pos := f.pos + 1) else f
  }

  /** lseek(2): the new offset, or None for the -1 answer. */
  function SeekTarget(f: File, offset: int, from: int): Option<nat> {
    var origin :=
      if from == SEEK_SET then 0 else if from == SEEK_CUR then f.pos else |f.content|;
    if from < SEEK_SET || from > SEEK_END || origin + offset < 0 then None else Some(origin + offset)
  }

  function Seek(f: File, offset: int, from: int): File {
    match SeekTarget(f, offset, from)
    case None => f
    case Some(p) => f.(pos := p)
  }

  /** Two consecutive writes are one write of both. */
  lemma WriteWrite(f: File, a: seq<Byte>, b: seq<Byte>)
    ensures Write(Write(f, a), b) == Write(f, a + b)
  {
    hide WriteAt, Padded;
    if a == [] {
      assert a + b == b;
    } else if b == [] {
      assert a + b == a;
    } else {
      var l, r := Write(Write(f, a), b).content, Write(f, a + b).content;
      assert |l| == |r|;
      assert forall i | 0 <= i < |l| :: l[i] == r[i];
    }
  }

  /** Reading moves over the file and stays at its end. */
  lemma ReadIs(f: File)
    ensures f.pos < |f.content| ==> ReadByte(f) == f.content[f.pos] && AfterRead(f) == File(f.content, f.pos + 1)
    ensures f.pos >= |f.content| ==> ReadByte(f) == -1 && AfterRead(f) == f
  {
  }

  // ---------- streams ----------

  /** How a system call ends: as asked, or with an error after moving some bytes. */
  datatype Io = Done | Failed(moved: nat)

  /** How much a read of `n` bytes takes where `left` are left: at least one byte, and as few as `chunk` says. */
  function Taken(n: nat, chunk: nat, left: nat): (k: nat)
    requires n > 0 && left > 0
    ensures 0 < k <= n && k <= left
  {
    var most := if n < left then n else left;
    if chunk == 0 then 1 else if chunk < most then chunk else most
  }

  /** Any number of bytes from one to all that fit. */
  lemma TakenAny(n: nat, left: nat, k: nat)
    requires 0 < k <= n && k <= left
    ensures exists chunk: nat :: Taken(n, chunk, left) == k
  {
    assert Taken(n, k, left) == k;
  }

  /** Where a stream starts that is opened in the mode. */
  function Opened(mode: char, existing: Option<seq<Byte>>): File {
    var was := if existing.Some? then existing.value else [];
    if mode == 'r' then File(was, 0) else if mode == 'w' then File([], 0) else File(was, |was|)
  }

  /** What a write stream says of its buffer: it says there is no room, claims room without having a buffer, or
      has one or needs none. */
  datatype Room = Unclaimed | Claimed | Held

  class MyFile {
    var cnt: int
    var ptr: nat              // offset into the buffer
    var base: array?<Byte>
    var reading: bool
    var writing: bool
    var unbuf: bool
    var eof: bool
    var err: bool
    var file: File            // what the descriptor refers to

    /** The macros touch the buffer only while `cnt` counts down to zero: this keeps them inside. */
    ghost predicate InBuffer()
      reads this
    {
      && (cnt > 0 ==> base != null && ptr + cnt <= base.Length)
      && (base != null ==> ptr <= base.Length)
    }

    /** Unread bytes are the file's bytes just before the descriptor's offset. */
    ghost predicate ReadOk()
      requires InBuffer()
      reads this, base
    {
      && reading && !writing
      && (base != null ==> base.Length == if unbuf then 1 else BUFSIZ)
      && (eof ==> cnt <= 0 && file.pos >= |file.content|)
      && (cnt > 0 ==> cnt <= file.pos <= |file.content|)
      && (forall j | ptr <= j < ptr + cnt :: base[j] == file.content[j - ptr + file.pos - cnt])
    }

    /** Room and pending bytes fill the buffer, unless a seek has just emptied it. */
    ghost predicate WriteOk()
      reads this, base
    {
      && writing && !reading
      && (base == null ==> cnt <= 0 && (cnt == 0 || unbuf))
      && (base != null ==>
            && !unbuf && base.Length == BUFSIZ && ptr <= BUFSIZ
            && (cnt + ptr == BUFSIZ || (cnt == 0 && ptr == 0)))
    }

    ghost predicate Valid()
      reads this, base
    {
      InBuffer() && !err && (ReadOk() || WriteOk())
    }

    /** What a flush, or a seek that is refused, leaves of a stream without a buffer: `cnt` claims a full one. The
        next put would write through the null pointer; a seek that succeeds takes the claim back. */
    ghost predicate Hollow()
      reads this
    {
      writing && !reading && !unbuf && !err && base == null && cnt == BUFSIZ && ptr == 0
    }

    /** A stream on which every call so far has gone well. */
    ghost predicate Sound()
      reads this, base
    {
      Valid() || Hollow()
    }

    /** Bytes put but not yet written. */
    ghost function Pending(): seq<Byte>
      requires Sound() || InBuffer()
      reads this, base
    {
      if writing && base != null then base[..ptr] else []
    }

    /** The file as an unbuffered program would have it. */
    ghost function Logical(): File
      requires Sound()
      reads this, base
    {
      if writing then Write(file, Pending())
      else if cnt > 0 then file.(pos := file.pos - cnt) else file
    }

    /** Whether a put has room, or knows that it has none. */
    ghost function Space(): Room
      requires writing
      reads this
    {
      if base != null || unbuf then Held else if cnt > 0 then Claimed else Unclaimed
    }

    /** What an operation may leave behind after a system call has failed: the buffer bounds hold unless the
        stream is hollow, it stays open in its mode, the file on disk is not promised anything. */
    ghost predicate Usable()
      reads this, base
    {
      || Hollow()
      || (InBuffer() && reading != writing && (base != null && writing ==> base.Length == BUFSIZ)
          && (err || ReadOk() || WriteOk()))
    }

    /** `my_getc`; `chunk` is how many bytes a refill gets at most (a short read). */
    method Getc(chunk: nat, io: Io) returns (c: int)
      requires Usable() && reading
      modifies this, base
      ensures Usable() && reading
      ensures (base == old(base) || fresh(base)) && unbuf == old(unbuf)
      ensures old(Valid()) && io.Done? ==>
        Valid() && c == ReadByte(old(Logical())) && Logical() == AfterRead(old(Logical()))
      ensures old(Valid()) && io.Done? && old(cnt) <= 0 && old(file.pos) < |file.content| ==>
        cnt + 1 == Taken(if unbuf then 1 else 1024, chunk, |file.content| - old(file.pos))
      ensures file.content == old(file.content)
    {
      cnt := cnt - 1;
      if cnt >= 0 {
        c := base[ptr];
        ptr := ptr + 1;
      } else {
        c := FillBuf(chunk, io);
      }
    }

    /** `_my_fillbuf`. */
    method FillBuf(chunk: nat, io: Io) returns (c: int)
      requires reading && !writing && cnt < 0 && InBuffer()
      requires !err && base != null ==> base.Length == if unbuf then 1 else BUFSIZ
      requires !err && eof ==> file.pos >= |file.content|
      modifies this, base
      ensures Usable() && reading
      ensures base == old(base) || fresh(base)
      ensures !old(err) && io.Done? ==> Valid() && c == ReadByte(old(file)) && Logical() == AfterRead(old(file))
      ensures !old(err) && !old(eof) && io.Done? && old(file.pos) < |file.content| ==>
        cnt + 1 == Taken(if unbuf then 1 else BUFSIZ, chunk, |file.content| - old(file.pos))
      ensures unbuf == old(unbuf)
      ensures file.content == old(file.content)
    {
      hide Write, WriteAt, Padded;
      if !reading || eof || err {
        return EOF;
      }
      var bufsize := if unbuf then 1 else BUFSIZ;
      if base == null {
        base := new Byte[bufsize];
      }
      c := Refill(chunk, io);
    }

    /** The part of `_my_fillbuf` that reads, when there is a buffer. */
    method Refill(chunk: nat, io: Io) returns (c: int)
      requires reading && !writing && !err && !eof && base != null && base.Length == if unbuf then 1 else BUFSIZ
      modifies this`ptr, this`cnt, this`eof, this`err, this`file, base
      ensures Usable()
      ensures io.Done? ==> Valid() && c == ReadByte(old(file)) && Logical() == AfterRead(old(file))
      ensures io.Done? && old(file.pos) < |file.content| ==>
        cnt + 1 == Taken(base.Length, chunk, |file.content| - old(file.pos))
      ensures file.content == old(file.content)
    {
      hide Write, WriteAt, Padded;
      ptr := 0;
      cnt := Read(base.Length, chunk, io);
      if cnt <= 0 {
        if cnt == 0 {
          eof := true;
        } else {
          err := true;
        }
        cnt := 0;
        return EOF;
      }
      cnt := cnt - 1;
      c := base[ptr];
      ptr := ptr + 1;
    }

    /** read(2) into the buffer: nothing at the end of the file, else at least one byte. */
    method Read(n: nat, chunk: nat, io: Io) returns (k: int)
      requires base != null && 0 < n == base.Length && ptr == 0
      modifies this`file, base
      ensures io.Failed? ==> k == -1 && file == old(file)
      ensures io.Done? && old(file.pos >= |file.content|) ==> k == 0 && file == old(file)
      ensures io.Done? && old(file.pos < |file.content|) ==>
                && k == Taken(n, chunk, |old(file.content)| - old(file.pos))
                && file == old(file).(pos := old(file.pos) + k)
                && forall j | 0 <= j < k :: base[j] == file.content[j + old(file.pos)]
    {
      if io.Failed? {
        return -1;
      }
      if file.pos >= |file.content| {
        return 0;
      }
      k := Taken(n, chunk, |file.content| - file.pos);
      forall i | 0 <= i < k {
        base[i] := file.content[file.pos + i];
      }
      file := file.(pos := file.pos + k);
    }

    /** `my_putc`.  The buffered branch yields the stored char as a signed value, the other one the
        argument itself.  On a hollow stream the buffered branch has no buffer. */
    method Putc(x: int, io: Io) returns (r: int)
      requires Usable() && writing && !Hollow()
      modifies this, base
      ensures Usable() && writing
      ensures base == old(base) || fresh(base)
      ensures old(Valid()) && io.Done? ==>
                && Valid() && Logical() == Write(old(Logical()), [ToByte(x)])
                && r == (if old(cnt) > 0 then SignedChar(ToByte(x)) else x)
      ensures old(Valid()) && io.Done? && 0 <= x < 256 ==> Logical() == Write(old(Logical()), [x])
      ensures old(Valid()) && io.Done? ==> unbuf || (base != null && cnt + ptr == 1024)
      ensures unbuf == old(unbuf)
    {
      ghost var pending := Pending();
      assert 0 <= x < 256 ==> ToByte(x) == x;
      hide Write, ToByte, SignedChar;
      cnt := cnt - 1;
      if cnt >= 0 {
        base[ptr] := ToByte(x);
        ptr := ptr + 1;
        assert Pending() == pending + [ToByte(x)];
        WriteWrite(file, pending, [ToByte(x)]);
        r := SignedChar(ToByte(x));
      } else {
        r := FlushBuf(x, io);
      }
    }

    /** write(2) of the first `n` bytes of the buffer. */
    method WriteBuffer(n: nat, io: Io) returns (w: int)
      requires base != null && 0 < n <= base.Length
      modifies this`file
      ensures io.Done? ==> w == n && file == Write(old(file), base[..n])
      ensures io.Failed? ==> w != n
    {
      var k := if io.Failed? && io.moved < n then io.moved else n;
      if io.Failed? && k == n {
        return -1;
      }
      file := Write(file, base[..k]);
      return k;
    }

    /** `_my_flushbuf`, reached with the macro's decrement done. */
    method FlushBuf(c: int, io: Io) returns (r: int)
      requires writing && !reading && cnt < 0 && InBuffer() && (base != null ==> base.Length == BUFSIZ)
      requires !err ==> (base != null ==> !unbuf && (ptr == BUFSIZ || ptr == 0))
      modifies this, base
      ensures Usable() && writing
      ensures base == old(base) || fresh(base)
      ensures old(!err) && io.Done? ==>
                && Valid() && r == c && Logical() == Write(Write(old(file), old(Pending())), [ToByte(c)])
      ensures old(!err) && io.Done? && !unbuf ==> base != null && cnt + ptr == BUFSIZ
      ensures unbuf == old(unbuf)
      ensures old(err) ==> r == EOF && file == old(file)
    {
      WriteNothing(file);
      hide Write;
      if !writing || err {
        return EOF;
      }
      if unbuf {
        if io.Failed? {
          err := true;
          return EOF;
        }
        file := Write(file, [ToByte(c)]);
        WriteNothing(file);
        return c;
      }
      if base == null {
        base := new Byte[BUFSIZ];
        ptr := 0;
        cnt := BUFSIZ;
      }
      var n := ptr;
      if n > 0 {
        var w := WriteBuffer(n, io);
        if w != n {
          err := true;
          return EOF;
        }
      }
      cnt := BUFSIZ - 1;
      ptr := 0;
      base[ptr] := ToByte(c);
      ptr := ptr + 1;
      assert Pending() == [ToByte(c)];
      return c;
    }

    /** `my_fflush`.  On a buffered stream that has no buffer it claims that a full one is free: the stream is
        hollow afterwards exactly then. */
    method Fflush(io: Io) returns (r: int)
      requires Usable()
      modifies this
      ensures base == old(base) && writing == old(writing) && reading == old(reading) && unbuf == old(unbuf)
      ensures Usable()
      ensures reading || old(err) ==> r == EOF && file == old(file)
      ensures old(Sound()) && writing && io.Done? ==>
                && r == 0 && Sound() && file == old(Logical()) == Logical() && Pending() == []
                && (Hollow() <==> base == null && !unbuf)
    {
      if !writing || err {
        return EOF;
      }
      WriteNothing(file);
      if unbuf {
        return 0;
      }
      if base != null && ptr > 0 {
        var n := ptr;
        var w := WriteBuffer(n, io);
        if w != n {
          err := true;
          return EOF;
        }
        WriteNothing(file);
      }
      hide Write;
      ptr := 0;
      cnt := BUFSIZ;
      return 0;
    }

    /** `my_fseek`. */
    method Fseek(offset: int, from: int, io: Io) returns (r: int)
      requires Usable()
      modifies this
      ensures base == old(base) && writing == old(writing) && reading == old(reading) && unbuf == old(unbuf)
      ensures Usable()
      ensures old(Sound()) && writing && io.Done? ==>
                && (r == 0 <==> SeekTarget(old(Logical()), offset, from).Some?) && (r == 0 || r == -1)
                && Sound() && Logical() == Seek(old(Logical()), offset, from)
                && (Hollow() <==> r != 0 && base == null && !unbuf)
                && (r == 0 ==> cnt == 0 && (base != null ==> ptr == 0))
      ensures old(Valid()) && reading ==>
                && (r == 0 <==> SeekTarget(old(file), offset, from).Some?) && (r == 0 || r == -1)
                && Valid()
                && Logical() == (if r == 0 then Seek(old(file), offset, from) else old(Logical()))
    {
      if writing {
        r := Fflush(io);
        if r == EOF {
          return -1;
        }
      }
      var target := SeekTarget(file, offset, from);
      if target == None {
        return -1;
      }
      file := file.(pos := target.value);
      WriteNothing(file);
      hide Write;
      ptr := 0;
      cnt := 0;
      eof := false;
      return 0;
    }

    /** `my_fclose`: what was put is in the file, and the slot is free again. */
    method Fclose(io: Io) returns (r: int)
      requires Usable()
      modifies this
      ensures old(Sound()) && io.Done? ==> r == 0 && file.content == old(Logical()).content
      ensures r == 0 ==> !reading && !writing && !unbuf && !eof && !err && base == null && cnt == 0
      ensures r == 0 || (r == EOF && err && Usable())
    {
      if writing && base != null && ptr > 0 {
        var n := ptr;
        var w := WriteBuffer(n, io);
        if w != n {
          err := true;
          return EOF;
        }
      }
      base := null;
      reading, writing, unbuf, eof, err := false, false, false, false, false;
      ptr, cnt := 0, 0;
      return 0;
    }

    /** `my_fopen` on a free slot; `existing` is the named file, if there is one.  The answer says
        whether the descriptor could be opened. */
    method Fopen(mode: char, existing: Option<seq<Byte>>) returns (ok: bool)
      requires !reading && !writing
      modifies this
      ensures ok <==> mode in "wa" || (mode == 'r' && existing.Some?)
      ensures ok ==> Valid() && base == null && !unbuf && reading == (mode == 'r')
      ensures ok ==> Logical() == Opened(mode, existing)
      ensures !ok ==> !reading && !writing
    {
      if mode != 'r' && mode != 'w' && mode != 'a' {
        return false;
      }
      unbuf, eof, err := false, false, false;
      ptr, cnt := 0, 0;
      if mode == 'w' {
        file := File([], 0);
      } else if mode == 'a' {
        var was := if existing.Some? then existing.value else [];
        file := File(was, |was|);
      } else {
        if existing.None? {
          return false;
        }
        file := File(existing.value, 0);
      }
      base := null;
      if mode == 'r' {
        reading := true;
      } else {
        writing := true;
      }
      return true;
    }
  }

  const OPEN_MAX: nat := 20

  /** The search of `my_fopen` for a slot: the first free one is opened, or none; no other slot is touched. */
  method OpenSlot(iob: array<MyFile>, mode: char, existing: Option<seq<Byte>>) returns (fp: MyFile?)
    requires iob.Length == 20 && forall i, j | 0 <= i < j < iob.Length :: iob[i] != iob[j]
    modifies iob[..]
    ensures fp == null <==>
      || mode !in "rwa" || (mode == 'r' && existing.None?)
      || forall i | 0 <= i < 20 :: old(iob[i].reading || iob[i].writing)
    ensures fp != null ==> fp in iob[..] && fp.Valid() && fp.Logical() == Opened(mode, existing)
    ensures fp != null ==> fp.base == null && fp.reading == (mode == 'r')
    ensures forall i | 0 <= i < 20 && (|| old(iob[i].reading || iob[i].writing)
                                       || exists j :: 0 <= j < i && old(!iob[j].reading && !iob[j].writing)) ::
              iob[i] != fp && unchanged(iob[i])
  {
    if mode != 'r' && mode != 'w' && mode != 'a' {
      return null;
    }
    var k := 0;
    while k < OPEN_MAX
      invariant 0 <= k <= OPEN_MAX
      invariant forall i | 0 <= i < k :: iob[i].reading || iob[i].writing
    {
      if !iob[k].reading && !iob[k].writing {
        break;
      }
      k := k + 1;
    }
    if k >= OPEN_MAX {
      return null;
    }
    var ok := iob[k].Fopen(mode, existing);
    fp := if ok then iob[k] else null;
  }

  /** A put byte 0xFF looks like an error when it goes into the buffer, and only that byte does. */
  lemma PutcAmbiguous(x: int)
    ensures SignedChar(ToByte(x)) == EOF <==> x % 256 == 255
  {
  }

  /** The byte that is stored for an int; a char put and taken as a signed value is the same again. */
  lemma ToByteIs(x: int)
    ensures (ToByte(x) - x) % 256 == 0 && (0 <= x < 256 ==> ToByte(x) == x)
    ensures -128 <= x < 128 ==> SignedChar(ToByte(x)) == x
  {
  }

  /** Where a seek goes: from the start, from the current position, from the end, and nowhere before the start. */
  lemma SeekTargets(f: File, offset: int)
    ensures SeekTarget(f, offset, 0) == if offset >= 0 then Some(offset) else None
    ensures SeekTarget(f, offset, 1) == if f.pos + offset >= 0 then Some(f.pos + offset) else None
    ensures SeekTarget(f, offset, 2) == if |f.content| + offset >= 0 then Some(|f.content| + offset) else None
    ensures forall from :: from !in {0, 1, 2} ==> SeekTarget(f, offset, from) == None
  {
  }

  /** Reading and writing anew start at the front, the latter with nothing; what is written after opening with "a"
      comes behind what there was. */
  lemma OpenedIs(existing: Option<seq<Byte>>, bs: seq<Byte>)
    ensures existing.Some? ==> Opened('r', existing) == File(existing.value, 0)
    ensures Opened('w', existing) == File([], 0)
    ensures Write(Opened('a', existing), bs).content == (if existing.Some? then existing.value else []) + bs
  {
    hide Write;
    WriteBehind(if existing.Some? then existing.value else [], bs);
  }

  lemma WriteBehind(content: seq<Byte>, bs: seq<Byte>)
    ensures Write(File(content, |content|), bs).content == content + bs
  {
    hide WriteAt;
    var w := WriteAt(content, |content|, bs);
    assert |w| == |content + bs|;
    assert w == content + bs;
  }

  // ---------- whole sessions ----------

  datatype WriteOp = Put(x: int) | Flush | SeekTo(offset: int, from: int)

  /** What an unbuffered program would do. */
  function WriteStep(f: File, op: WriteOp): File {
    match op
    case Put(x) => Write(f, [ToByte(x)])
    case Flush => f
    case SeekTo(offset, from) => Seek(f, offset, from)
  }

  function WriteRun(f: File, ops: seq<WriteOp>): File
    decreases |ops|
  {
    if ops == [] then f else WriteRun(WriteStep(f, ops[0]), ops[1..])
  }

  function RoomAfter(f: File, op: WriteOp, room: Room): Room {
    match op
    case Put(_) => Held
    case Flush => if room == Held then Held else Claimed
    case SeekTo(offset, from) =>
      if room == Held then Held else if SeekTarget(f, offset, from).Some? then Unclaimed else Claimed
  }

  /** No put comes while the stream claims room without a buffer. */
  ghost predicate Orderly(f: File, ops: seq<WriteOp>, room: Room)
    decreases |ops|
  {
    ops != [] ==>
      && !(ops[0].Put? && room == Claimed)
      && Orderly(WriteStep(f, ops[0]), ops[1..], RoomAfter(f, ops[0], room))
  }

  /** The first put, or the end. */
  function FirstPut(ops: seq<WriteOp>): (n: nat)
    ensures n <= |ops| && (n < |ops| ==> ops[n].Put?)
    ensures forall i | 0 <= i < n :: !ops[i].Put?
  {
    if ops == [] || ops[0].Put? then 0 else 1 + FirstPut(ops[1..])
  }

  /** Once there is a buffer nothing goes wrong. */
  lemma {:induction false} HeldOrderly(f: File, ops: seq<WriteOp>)
    ensures Orderly(f, ops, Held)
    decreases |ops|
  {
    if ops != [] {
      HeldOrderly(WriteStep(f, ops[0]), ops[1..]);
    }
  }

  /** For a client that starts without a buffer the condition is about one call: the one before the first put, if
      there is one, has to be a seek that succeeds. */
  lemma {:induction false} OrderlyExactly(f: File, ops: seq<WriteOp>, room: Room)
    requires room != Held
    ensures var n := FirstPut(ops);
      Orderly(f, ops, room) <==>
      || n == |ops|
      || (n == 0 && room == Unclaimed)
      || (n > 0 && ops[n - 1].SeekTo? &&
        SeekTarget(WriteRun(f, ops[..n - 1]), ops[n - 1].offset, ops[n - 1].from).Some?)
    decreases |ops|
  {
    if ops != [] {
      hide Write, SeekTarget;
      var n, f1, rest := FirstPut(ops), WriteStep(f, ops[0]), ops[1..];
      if ops[0].Put? {
        HeldOrderly(f1, rest);
      } else {
        OrderlyExactly(f1, rest, RoomAfter(f, ops[0], room));
        if n > 1 {
          assert rest[..n - 2] == ops[..n - 1][1..] && ops[..n - 1][0] == ops[0];
          assert WriteRun(f, ops[..n - 1]) == WriteRun(f1, rest[..n - 2]);
          assert rest[n - 2] == ops[n - 1];
        } else {
          assert ops[..0] == [] && WriteRun(f, []) == f;
        }
      }
    }
  }

  /** Any client writing through a stream, up to the first put for which there is no room: before that the stream
      is what the unbuffered operations would have made of the file, and after the final close so is the file. */
  method WriteSession(fp: MyFile, ops: seq<WriteOp>) returns (n: nat)
    requires fp.Sound() && fp.writing
    modifies fp, fp.base
    ensures n <= |ops| && (n == |ops| <==> Orderly(old(fp.Logical()), ops, old(fp.Space())))
    ensures n == |ops| ==> !fp.reading && !fp.writing && fp.file.content == WriteRun(old(fp.Logical()), ops).content
    ensures n < |ops| ==> ops[n].Put? && fp.Hollow() && fp.Logical() == WriteRun(old(fp.Logical()), ops[..n])
  {
    hide Write, SeekTarget, WriteStep;
    n := 0;
    assert ops[..0] == [] && ops[0..] == ops;
    while n < |ops| && !(ops[n].Put? && fp.cnt > 0 && fp.base == null)
      invariant n <= |ops|
      invariant fp.Sound() && fp.writing && (fp.base == old(fp.base) || fresh(fp.base))
      invariant Orderly(fp.Logical(), ops[n..], fp.Space()) <==> Orderly(old(fp.Logical()), ops, old(fp.Space()))
      invariant WriteRun(fp.Logical(), ops[n..]) == WriteRun(old(fp.Logical()), ops)
      invariant fp.Logical() == WriteRun(old(fp.Logical()), ops[..n])
    {
      assert ops[n..][0] == ops[n] && ops[n..][1..] == ops[n + 1..];
      WriteRunMore(old(fp.Logical()), ops[..n], ops[n]);
      assert ops[..n + 1] == ops[..n] + [ops[n]];
      ClientWrites(fp, ops[n]);
      n := n + 1;
    }
    if n < |ops| {
      assert ops[n..][0] == ops[n];
      return;
    }
    assert ops[n..] == [];
    var _ := fp.Fclose(Done);
  }

  lemma {:induction false} WriteRunMore(f: File, ops: seq<WriteOp>, op: WriteOp)
    ensures WriteRun(f, ops + [op]) == WriteStep(WriteRun(f, ops), op)
    decreases |ops|
  {
    if ops == [] {
      assert ops + [op] == [op];
    } else {
      hide WriteStep;
      assert (ops + [op])[1..] == ops[1..] + [op];
      WriteRunMore(WriteStep(f, ops[0]), ops[1..], op);
    }
  }

  /** One operation of a writing client. */
  method ClientWrites(fp: MyFile, op: WriteOp)
    requires fp.Sound() && fp.writing && (op.Put? ==> !fp.Hollow())
    modifies fp, fp.base
    ensures fp.Sound() && fp.writing && fp.Logical() == WriteStep(old(fp.Logical()), op)
    ensures fp.base == old(fp.base) || fresh(fp.base)
    ensures fp.Space() == RoomAfter(old(fp.Logical()), op, old(fp.Space()))
  {
    hide Write, SeekTarget;
    match op
    case Put(x) =>
      var _ := fp.Putc(x, Done);
    case Flush =>
      var _ := fp.Fflush(Done);
    case SeekTo(offset, from) =>
      var _ := fp.Fseek(offset, from, Done);
  }

  /** A session that goes wrong: a file just opened for writing, a flush, and then a put. */
  method FlushFirst(fp: MyFile)
    requires !fp.reading && !fp.writing
    modifies fp, fp.base
    ensures fp.Hollow() && !fp.InBuffer() && !Orderly(File([], 0), [Flush, Put(65)], Unclaimed)
  {
    var _ := fp.Fopen('w', None);
    var n := WriteSession(fp, [Flush, Put(65)]);
  }

  datatype ReadOp = Get | Rewind(offset: int, from: int)

  function ReadStep(f: File, op: ReadOp): File {
    match op
    case Get => AfterRead(f)
    case Rewind(offset, from) => Seek(f, offset, from)
  }

  function SoughtTo(f: File, pos: int): File {
    if pos < 0 then f else File(f.content, pos)
  }

  /** A seek moves to the offset counted from the start, from the current position or from the end, or not at all. */
  lemma SeekMoves(f: File, offset: int)
    ensures WriteStep(f, SeekTo(offset, 0)) == ReadStep(f, Rewind(offset, 0)) == SoughtTo(f, offset)
    ensures WriteStep(f, SeekTo(offset, 1)) == ReadStep(f, Rewind(offset, 1)) == SoughtTo(f, f.pos + offset)
    ensures WriteStep(f, SeekTo(offset, 2)) == ReadStep(f, Rewind(offset, 2)) == SoughtTo(f, |f.content| + offset)
    ensures forall from | from !in {0, 1, 2} ::
              WriteStep(f, SeekTo(offset, from)) == ReadStep(f, Rewind(offset, from)) == f
  {
  }

  /** The values the gets return, one for each. */
  function ReadRun(f: File, ops: seq<ReadOp>): seq<int>
    decreases |ops|
  {
    if ops == [] then []
    else (if ops[0].Get? then [ReadByte(f)] else []) + ReadRun(ReadStep(f, ops[0]), ops[1..])
  }

  /** The file after the operations. */
  function ReadFile(f: File, ops: seq<ReadOp>): File {
    if ops == [] then f else ReadStep(ReadFile(f, ops[..|ops| - 1]), ops[|ops| - 1])
  }

  lemma {:induction false} ReadRunMore(f: File, ops: seq<ReadOp>, op: ReadOp)
    ensures ReadFile(f, ops + [op]) == ReadStep(ReadFile(f, ops), op)
    ensures ReadRun(f, ops + [op]) == ReadRun(f, ops) + if op.Get? then [ReadByte(ReadFile(f, ops))] else []
    decreases |ops|
  {
    hide ReadStep, ReadByte;
    assert (ops + [op])[..|ops|] == ops;
    if ops == [] {
      assert ops + [op] == [op];
      assert ReadRun(f, [op]) == (if op.Get? then [ReadByte(f)] else []) + ReadRun(ReadStep(f, op), []);
    } else {
      assert (ops + [op])[1..] == ops[1..] + [op];
      ReadRunMore(ReadStep(f, ops[0]), ops[1..], op);
      ReadFileFront(f, ops);
    }
  }

  lemma {:induction false} ReadFileFront(f: File, ops: seq<ReadOp>)
    requires ops != []
    ensures ReadFile(f, ops) == ReadFile(ReadStep(f, ops[0]), ops[1..])
    decreases |ops|
  {
    hide ReadStep;
    if |ops| == 1 {
      assert ops[..0] == [] && ops[1..] == [];
    } else {
      ReadFileFront(f, ops[..|ops| - 1]);
      assert ops[..|ops| - 1][1..] == ops[1..][..|ops| - 2];
    }
  }

  /** Any client reading through a stream and seeking, up to the first relative seek that does not do what an
      unbuffered one would: until then it sees the bytes that the unbuffered operations give, whatever the lengths
      of the reads. That seek, made with bytes unread, goes elsewhere or goes where the other is refused. */
  method ReadSession(fp: MyFile, ops: seq<ReadOp>, chunks: nat -> nat) returns (seen: seq<int>, n: nat)
    requires fp.Valid() && fp.reading
    modifies fp, fp.base
    ensures n <= |ops| && seen == ReadRun(old(fp.Logical()), ops[..n])
    ensures fp.Valid() && fp.reading && (n == |ops| ==> fp.Logical() == ReadFile(old(fp.Logical()), ops))
    ensures n < |ops| ==> ops[n].Rewind? && ops[n].from == SEEK_CUR && var f := ReadFile(old(fp.Logical()), ops[..n]);
              fp.Logical() != Seek(f, ops[n].offset, SEEK_CUR) || SeekTarget(f, ops[n].offset, SEEK_CUR).None?
  {
    seen, n := [], 0;
    assert ops[..0] == [];
    while n < |ops|
      invariant n <= |ops|
      invariant fp.Valid() && fp.reading && (fp.base == old(fp.base) || fresh(fp.base))
      invariant fp.Logical() == ReadFile(old(fp.Logical()), ops[..n])
      invariant seen == ReadRun(old(fp.Logical()), ops[..n])
    {
      hide Write, ReadByte, ReadRun, ReadFile;
      assert ops[..n + 1] == ops[..n] + [ops[n]];
      ReadRunMore(old(fp.Logical()), ops[..n], ops[n]);
      var strays;
      seen, strays := ClientReads(fp, ops[n], chunks(n), seen);
      if strays {
        return;
      }
      n := n + 1;
    }
    assert ops[..n] == ops;
  }

  /** One operation of a reading client; whether it strays. */
  method ClientReads(fp: MyFile, op: ReadOp, chunk: nat, before: seq<int>) returns (seen: seq<int>, strays: bool)
    requires fp.Valid() && fp.reading
    modifies fp, fp.base
    ensures fp.Valid() && fp.reading && (fp.base == old(fp.base) || fresh(fp.base))
    ensures strays <==> op.Rewind? && SeekTarget(old(fp.file), op.offset, op.from)
                                      != SeekTarget(old(fp.Logical()), op.offset, op.from)
    ensures strays ==> op.from == SEEK_CUR && seen == before
    ensures strays ==> fp.Logical() != Seek(old(fp.Logical()), op.offset, op.from)
                       || SeekTarget(old(fp.Logical()), op.offset, op.from).None?
    ensures !strays ==> fp.Logical() == ReadStep(old(fp.Logical()), op)
    ensures !strays ==> seen == before + if op.Get? then [ReadByte(old(fp.Logical()))] else []
  {
    hide Write, ReadByte;
    ghost var f := fp.Logical();
    match op
    case Get =>
      var c := fp.Getc(chunk, Done);
      seen, strays := before + [c], false;
    case Rewind(offset, from) =>
      var unread := if fp.cnt > 0 then fp.cnt else 0;
      if from != SEEK_CUR {
        SeekSameFromEnds(fp.file, f, offset, from);
      }
      ReadSeekExactly(fp.file, unread, offset, from);
      seen, strays := before, from == SEEK_CUR && unread > 0 && fp.file.pos + offset >= 0;
      var _ := fp.Fseek(offset, from, Done);
  }

  /** A session that strays: of a file of two bytes one is read, and then the position is asked for; the next byte
      is lost. */
  method SeekStrays(fp: MyFile) returns (r: int)
    requires !fp.reading && !fp.writing
    modifies fp, fp.base
    ensures r == 0 && fp.Valid() && fp.Logical() == File([65, 66], 2)
    ensures ReadFile(File([65, 66], 0), [Get, Rewind(0, SEEK_CUR)]) == File([65, 66], 1)
  {
    var _ := fp.Fopen('r', Some([65, 66]));
    var _ := fp.Getc(2, Done);
    assert fp.Logical() == File([65, 66], 1);
    r := fp.Fseek(0, SEEK_CUR, Done);
    assert [Get, Rewind(0, SEEK_CUR)] == [Get] + [Rewind(0, SEEK_CUR)] && [Get] == [] + [Get];
    ReadRunMore(File([65, 66], 0), [Get], Rewind(0, SEEK_CUR));
    ReadRunMore(File([65, 66], 0), [], Get);
  }

  lemma SeekSameFromEnds(raw: File, logical: File, offset: int, from: int)
    requires raw.content == logical.content && from != SEEK_CUR
    ensures SeekTarget(raw, offset, from) == SeekTarget(logical, offset, from)
  {
  }

  /** A seek on a read stream moves the descriptor, which is ahead by the unread bytes: relative to
      the current position it is right exactly when nothing is buffered, or both seeks are refused. */
  lemma ReadSeekExactly(raw: File, unread: nat, offset: int, from: int)
    requires unread <= raw.pos
    ensures SeekTarget(raw, offset, from) == SeekTarget(raw.(pos := raw.pos - unread), offset, from)
      <==> from != SEEK_CUR || unread == 0 || raw.pos + offset < 0
  {
  }

  /** Putting bytes one at a time is writing them. */
  lemma {:induction false} PutsAreOneWrite(f: File, xs: seq<int>)
    ensures WriteRun(f, seq(|xs|, i requires 0 <= i < |xs| => Put(xs[i]))) ==
      Write(f, seq(|xs|, i requires 0 <= i < |xs| => ToByte(xs[i])))
    decreases |xs|
  {
    var ops := seq(|xs|, i requires 0 <= i < |xs| => Put(xs[i]));
    var bs := seq(|xs|, i requires 0 <= i < |xs| => ToByte(xs[i]));
    if xs != [] {
      var rest := xs[1..];
      assert ops[1..] == seq(|rest|, i requires 0 <= i < |rest| => Put(rest[i]));
      assert bs == [bs[0]] + seq(|rest|, i requires 0 <= i < |rest| => ToByte(rest[i]));
      PutsAreOneWrite(Write(f, [bs[0]]), rest);
      WriteWrite(f, [bs[0]], seq(|rest|, i requires 0 <= i < |rest| => ToByte(rest[i])));
    }
  }

  /** The puts of some bytes. */
  function Puts(bs: seq<Byte>): seq<WriteOp> {
    seq(|bs|, i requires 0 <= i < |bs| => Put(bs[i]))
  }

  /** They write those bytes. */
  lemma PutsWrite(f: File, bs: seq<Byte>)
    ensures WriteRun(f, Puts(bs)) == Write(f, bs)
  {
    var xs: seq<int> := bs;
    PutsAreOneWrite(f, xs);
    forall i | 0 <= i < |bs| ensures ToByte(xs[i]) == bs[i] {
      ToByteIs(xs[i]);
    }
    assert Puts(bs) == seq(|xs|, i requires 0 <= i < |xs| => Put(xs[i]));
    assert bs == seq(|xs|, i requires 0 <= i < |xs| => ToByte(xs[i]));
  }

  /** A client that writes a new file. */
  method Save(fp: MyFile, bs: seq<Byte>)
    requires !fp.reading && !fp.writing
    modifies fp, fp.base
    ensures !fp.reading && !fp.writing && fp.file.content == bs
  {
    var _ := fp.Fopen('w', None);
    PutsWrite(File([], 0), bs);
    OrderlyExactly(File([], 0), Puts(bs), Unclaimed);
    WriteBehind([], bs);
    assert [] + bs == bs;
    hide Write, WriteRun, Orderly, Opened;
    assert Opened('w', None) == File([], 0) by { OpenedIs(None, []); }
    var n := WriteSession(fp, Puts(bs));
  }

  /** A client that reads it: it sees the bytes, and then EOF. */
  method Load(fp: MyFile, bs: seq<Byte>, chunks: nat -> nat) returns (seen: seq<int>)
    requires !fp.reading && !fp.writing
    modifies fp, fp.base
    ensures |seen| == |bs| + 1 && seen[|bs|] == -1 && forall i | 0 <= i < |bs| :: seen[i] == bs[i]
  {
    var _ := fp.Fopen('r', Some(bs));
    var ops := seq(|bs| + 1, i => Get);
    GetsReadInOrder(File(bs, 0), |bs| + 1);
    var n;
    seen, n := ReadSession(fp, ops, chunks);
    assert n == |ops|;
    assert ops[..n] == ops;
  }

  /** Getting `n` times returns the file's bytes in order, then EOF. */
  lemma {:induction false} GetsReadInOrder(f: File, n: nat)
    ensures var out := ReadRun(f, seq(n, i => Get));
      |out| == n && forall i | 0 <= i < n :: out[i] == if f.pos + i < |f.content| then f.content[f.pos + i] else EOF
    decreases n
  {
    if n > 0 {
      var ops := seq(n, i => Get);
      assert ops[1..] == seq(n - 1, i => Get);
      GetsReadInOrder(AfterRead(f), n - 1);
    }
  }
}
