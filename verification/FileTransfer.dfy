/** Sending a file in packets whose payload is filled like a C string, and receiving it. */
module FileTransfer {
  import opened Basics
  import opened ByteStreams

  const MAX_NICK := 32
  const MAX_FILENAME := 256
  const CHUNK := 1024

  const MSG_FILE_START := 4
  const MSG_FILE_DATA := 5
  const MSG_FILE_END := 6

  datatype ChatPacket = ChatPacket(kind: nat, dataLen: nat, nickname: Bytes, filename: Bytes, payload: Bytes)

  /** strncpy of at most n bytes into a zeroed field: it stops at the first NUL and the rest stays zero. */
  function StringField(text: Bytes, n: nat, size: nat): (f: Bytes)
    requires n <= size
    ensures |f| == size
  {
    seq(size, j requires 0 <= j < size => if j < n && j < |text| && 0 !in text[..j] then text[j] else 0)
  }

  /** The packet send_packet fills in. */
  function Filled(kind: nat, nickname: Bytes, text: Bytes, filename: Bytes, dataLen: nat): ChatPacket {
    ChatPacket(kind, dataLen, StringField(nickname, MAX_NICK - 1, MAX_NICK),
               StringField(filename, MAX_FILENAME - 1, MAX_FILENAME), StringField(text, CHUNK - 1, CHUNK))
  }

  /** The packets of the chunks of a file; `stale` is what the chunk buffer holds before the first read. */
  function DataPackets(nickname: Bytes, filename: Bytes, file: Bytes, stale: Bytes): seq<ChatPacket>
    requires |stale| == CHUNK
  {
    if file == [] then []
    else
      var n := Least(CHUNK, |file|);
      [Filled(MSG_FILE_DATA, nickname, file[..n] + stale[n..], filename, n)]
      + DataPackets(nickname, filename, file[n..], Zeros(CHUNK))
  }

  function Upload(nickname: Bytes, filename: Bytes, file: Bytes, stale: Bytes): seq<ChatPacket>
    requires |stale| == CHUNK
  {
    [Filled(MSG_FILE_START, nickname, [], filename, 0)]
    + DataPackets(nickname, filename, file, stale)
    + [Filled(MSG_FILE_END, nickname, [], filename, 0)]
  }

  /** The upload loop: read a chunk into the buffer, send it, clear the buffer. */
  method UploadFile(nickname: Bytes, filename: Bytes, file: Bytes, buffer: array<byte>) returns (sent: seq<ChatPacket>)
    requires buffer.Length == CHUNK
    modifies buffer
    ensures sent == Upload(nickname, filename, file, old(buffer[..]))
  {
    sent := [Filled(MSG_FILE_START, nickname, [], filename, 0)];
    var at := 0;
    ghost var all := DataPackets(nickname, filename, file, buffer[..]);
    assert file[0..] == file;
    while at < |file|
      invariant at <= |file|
      invariant sent + DataPackets(nickname, filename, file[at..], buffer[..])
                == [Filled(MSG_FILE_START, nickname, [], filename, 0)] + all
    {
      ghost var was, before := buffer[..], sent;
      var n := Least(CHUNK, |file| - at);
      forall i | 0 <= i < n { buffer[i] := file[at + i]; }
      assert buffer[..] == file[at..][..n] + was[n..];
      var p := Filled(MSG_FILE_DATA, nickname, buffer[..], filename, n);
      sent := sent + [p];
      forall i | 0 <= i < CHUNK { buffer[i] := 0; }
      assert buffer[..] == Zeros(CHUNK);
      assert file[at..][n..] == file[at + n..];
      assert before + ([p] + DataPackets(nickname, filename, file[at + n..], Zeros(CHUNK)))
          == sent + DataPackets(nickname, filename, file[at + n..], Zeros(CHUNK));
      at := at + n;
    }
    sent := sent + [Filled(MSG_FILE_END, nickname, [], filename, 0)];
  }

  // ----- receiving -----

  /** The receiver's open file, if any, and the files it has closed. */
  datatype Receiver = Receiver(rxOpen: bool, current: Bytes, saved: seq<Bytes>)

  /** The effect of one packet from the server on the receiver's files. */
  function Receive(r: Receiver, p: ChatPacket): Receiver {
    if p.kind == MSG_FILE_START then r.(rxOpen := true, current := [])
    else if p.kind == MSG_FILE_DATA && r.rxOpen then
      r.(current := r.current + p.payload[..Least(p.dataLen, |p.payload|)])
    else if p.kind == MSG_FILE_END && r.rxOpen then r.(rxOpen := false, saved := r.saved + [r.current])
    else r
  }

  class FileReceiver {
    var rxOpen: bool
    var current: Bytes
    var saved: seq<Bytes>

    ghost function View(): Receiver
      reads this
    {
      Receiver(rxOpen, current, saved)
    }

    method HandleServerMessage(p: ChatPacket)
      requires |p.payload| == CHUNK && (p.kind == MSG_FILE_DATA && rxOpen ==> p.dataLen <= CHUNK)
      modifies this
      ensures View() == Receive(old(View()), p)
    {
      if p.kind == MSG_FILE_START {
        rxOpen, current := true, [];
      } else if p.kind == MSG_FILE_DATA {
        if rxOpen { current := current + p.payload[..p.dataLen]; }
      } else if p.kind == MSG_FILE_END {
        if rxOpen { rxOpen, saved := false, saved + [current]; }
      }
    }
  }

  function ReceiveAll(r: Receiver, ps: seq<ChatPacket>): Receiver
    decreases |ps|
  {
    if ps == [] then r else ReceiveAll(Receive(r, ps[0]), ps[1..])
  }

  predicate AboutFiles(p: ChatPacket) {
    p.kind == MSG_FILE_START || p.kind == MSG_FILE_DATA || p.kind == MSG_FILE_END
  }

  /** The packets of a stream that concern files. */
  function FilePackets(ps: seq<ChatPacket>): seq<ChatPacket> {
    if ps == [] then [] else (if AboutFiles(ps[0]) then [ps[0]] else []) + FilePackets(ps[1..])
  }

  lemma {:induction false} OthersIgnored(r: Receiver, ps: seq<ChatPacket>)
    ensures ReceiveAll(r, ps) == ReceiveAll(r, FilePackets(ps))
    decreases |ps|
  {
    if ps != [] {
      OthersIgnored(Receive(r, ps[0]), ps[1..]);
      if AboutFiles(ps[0]) {
        assert FilePackets(ps)[1..] == FilePackets(ps[1..]);
      } else {
        assert FilePackets(ps) == FilePackets(ps[1..]);
      }
    }
  }

  lemma {:induction false} ReceiveConcat(r: Receiver, ps: seq<ChatPacket>, qs: seq<ChatPacket>)
    ensures ReceiveAll(r, ps + qs) == ReceiveAll(ReceiveAll(r, ps), qs)
    decreases |ps|
  {
    if ps == [] {
      assert ps + qs == qs;
    } else {
      assert (ps + qs)[1..] == ps[1..] + qs;
      ReceiveConcat(Receive(r, ps[0]), ps[1..], qs);
    }
  }

  // ----- what arrives of a file -----

  /** What arrives of one chunk: nothing behind its first NUL, and never its 1024th byte. */
  function ChunkArrived(chunk: Bytes): (a: Bytes)
    ensures |a| == |chunk|
  {
    seq(|chunk|, j requires 0 <= j < |chunk| => if j < CHUNK - 1 && 0 !in chunk[..j] then chunk[j] else 0)
  }

  function FileArrived(file: Bytes): (a: Bytes)
    ensures |a| == |file|
  {
    if file == [] then []
    else
      var n := Least(CHUNK, |file|);
      ChunkArrived(file[..n]) + FileArrived(file[n..])
  }

  lemma {:induction false} ChunkReceived(chunk: Bytes, stale: Bytes)
    requires |chunk| <= CHUNK == |stale|
    ensures StringField(chunk + stale[|chunk|..], CHUNK - 1, CHUNK)[..|chunk|] == ChunkArrived(chunk)
  {
    var buffer := chunk + stale[|chunk|..];
    forall j | 0 <= j < |chunk| ensures buffer[..j] == chunk[..j] && buffer[j] == chunk[j] {
    }
  }

  lemma {:induction false} DataReceived(r: Receiver, nickname: Bytes, filename: Bytes, file: Bytes, stale: Bytes)
    requires r.rxOpen && |stale| == CHUNK
    ensures ReceiveAll(r, DataPackets(nickname, filename, file, stale)) == r.(current := r.current + FileArrived(file))
    decreases |file|
  {
    if file != [] {
      var n := Least(CHUNK, |file|);
      var p := Filled(MSG_FILE_DATA, nickname, file[..n] + stale[n..], filename, n);
      ChunkReceived(file[..n], stale);
      var r' := Receive(r, p);
      assert r' == r.(current := r.current + ChunkArrived(file[..n]));
      DataReceived(r', nickname, filename, file[n..], Zeros(CHUNK));
      var ps := DataPackets(nickname, filename, file, stale);
      assert ps[0] == p && ps[1..] == DataPackets(nickname, filename, file[n..], Zeros(CHUNK));
      assert r.current + ChunkArrived(file[..n]) + FileArrived(file[n..]) == r.current + FileArrived(file);
    } else {
      assert r.current + [] == r.current;
    }
  }

  /** With one uploader at a time, whatever else is said meanwhile and whatever the chunk buffer held before, one file
      is saved: what arrives of the source. */
  lemma {:induction false} UploadArrives(r: Receiver, ps: seq<ChatPacket>, nickname: Bytes, filename: Bytes,
                                         file: Bytes, stale: Bytes)
    requires |stale| == CHUNK && FilePackets(ps) == Upload(nickname, filename, file, stale)
    ensures ReceiveAll(r, ps) == Receiver(false, FileArrived(file), r.saved + [FileArrived(file)])
  {
    OthersIgnored(r, ps);
    var start := Filled(MSG_FILE_START, nickname, [], filename, 0);
    var end := Filled(MSG_FILE_END, nickname, [], filename, 0);
    var data := DataPackets(nickname, filename, file, stale);
    ReceiveConcat(r, [start] + data, [end]);
    ReceiveConcat(r, [start], data);
    assert [start][1..] == [] && [end][1..] == [];
    var rxOpen := Receive(r, start);
    DataReceived(rxOpen, nickname, filename, file, stale);
    assert rxOpen.current + FileArrived(file) == FileArrived(file);
  }

  /** A chunk survives exactly if nothing but NULs stands behind its first NUL and its 1024th byte, if it has one, is
      NUL. */
  predicate ChunkSurvives(chunk: Bytes) {
    && (forall i, j :: 0 <= i < j < |chunk| && chunk[i] == 0 ==> chunk[j] == 0)
    && (|chunk| >= CHUNK ==> chunk[CHUNK - 1] == 0)
  }

  predicate Survives(file: Bytes) {
    file == [] || (ChunkSurvives(file[..Least(CHUNK, |file|)]) && Survives(file[Least(CHUNK, |file|)..]))
  }

  lemma {:induction false} ChunkSurvivesExactly(chunk: Bytes)
    requires |chunk| <= CHUNK
    ensures ChunkArrived(chunk) == chunk <==> ChunkSurvives(chunk)
  {
    var a := ChunkArrived(chunk);
    if a == chunk {
      forall i, j | 0 <= i < j < |chunk| && chunk[i] == 0 ensures chunk[j] == 0 {
        assert chunk[..j][i] == 0;
        assert a[j] == chunk[j];
      }
      if |chunk| >= CHUNK { assert a[CHUNK - 1] == chunk[CHUNK - 1]; }
    }
  }

  /** The received file always has the source's length, and it is the source exactly when every 1024-byte chunk
      survives. */
  lemma {:induction false} FileArrivesExactly(file: Bytes)
    ensures |FileArrived(file)| == |file|
    ensures FileArrived(file) == file <==> Survives(file)
  {
    if file != [] {
      var n := Least(CHUNK, |file|);
      ChunkSurvivesExactly(file[..n]);
      FileArrivesExactly(file[n..]);
      var a := FileArrived(file);
      assert a[..n] == ChunkArrived(file[..n]) && a[n..] == FileArrived(file[n..]);
      assert file == file[..n] + file[n..] && a == a[..n] + a[n..];
    }
  }

  // ----- packets as bytes -----

  predicate WellFormed(p: ChatPacket) {
    p.kind < 0x1_0000_0000 && p.dataLen < 0x1_0000_0000
    && |p.nickname| == MAX_NICK && |p.filename| == MAX_FILENAME && |p.payload| == CHUNK
  }

  function Word(n: nat): (b: Bytes)
    requires n < 0x1_0000_0000
    ensures |b| == 4
  {
    [n % 256, n / 256 % 256, n / 0x10000 % 256, n / 0x100_0000]
  }

  function WordValue(b: Bytes): (n: nat)
    requires |b| == 4
  {
    b[0] as int + 256 * (b[1] as int) + 0x10000 * (b[2] as int) + 0x100_0000 * (b[3] as int)
  }

  function Encode(p: ChatPacket): (b: Bytes)
    requires WellFormed(p)
    ensures |b| == PACKET_SIZE
  {
    Word(p.kind) + Word(p.dataLen) + p.nickname + p.filename + p.payload
  }

  function Decode(b: Bytes): ChatPacket
    requires |b| == PACKET_SIZE
  {
    ChatPacket(WordValue(b[0..4]), WordValue(b[4..8]), b[8..40], b[40..296], b[296..])
  }

  lemma {:induction false} WordRoundTrip(n: nat)
    requires n < 0x1_0000_0000
    ensures WordValue(Word(n)) == n
  {
    var q := n / 256;
    assert n / 0x10000 == q / 256 && n / 0x100_0000 == q / 256 / 256;
  }

  /** A packet struct copied out as bytes and back in is the same packet. */
  lemma {:induction false} PacketRoundTrip(p: ChatPacket)
    requires WellFormed(p)
    ensures Decode(Encode(p)) == p
  {
    WordRoundTrip(p.kind);
    WordRoundTrip(p.dataLen);
    var b := Encode(p);
    assert b[0..4] == Word(p.kind) && b[4..8] == Word(p.dataLen);
    assert b[8..40] == p.nickname && b[40..296] == p.filename && b[296..] == p.payload;
  }

  predicate AllWellFormed(ps: seq<ChatPacket>) {
    forall i :: 0 <= i < |ps| ==> WellFormed(ps[i])
  }

  function EncodeAll(ps: seq<ChatPacket>): (bs: seq<Bytes>)
    requires AllWellFormed(ps)
    ensures |bs| == |ps| && WholePackets(bs)
  {
    seq(|ps|, i requires 0 <= i < |ps| => Encode(ps[i]))
  }

  function DecodeAll(bs: seq<Bytes>): (ps: seq<ChatPacket>)
    requires WholePackets(bs)
    ensures |ps| == |bs|
  {
    seq(|bs|, i requires 0 <= i < |bs| => Decode(bs[i]))
  }

  /** The bytes of packets written one after the other. */
  function Wire(ps: seq<ChatPacket>): Bytes
    requires AllWellFormed(ps)
  {
    Joined(EncodeAll(ps))
  }

  /** Whatever packets are written, cutting and decoding the byte stream recovers exactly them. */
  lemma {:induction false} WireRoundTrip(ps: seq<ChatPacket>)
    requires AllWellFormed(ps)
    ensures Split(Wire(ps)) == EncodeAll(ps) && |Wire(ps)| % PACKET_SIZE == 0
    ensures DecodeAll(Split(Wire(ps))) == ps
  {
    var bs := EncodeAll(ps);
    SplitJoined(bs, []);
    assert Joined(bs) + [] == Joined(bs);
    forall i | 0 <= i < |ps| ensures Decode(bs[i]) == ps[i] {
      PacketRoundTrip(ps[i]);
    }
  }

  lemma {:induction false} DataWellFormed(nickname: Bytes, filename: Bytes, file: Bytes, stale: Bytes)
    requires |stale| == CHUNK
    ensures AllWellFormed(DataPackets(nickname, filename, file, stale))
    decreases |file|
  {
    if file != [] {
      var n := Least(CHUNK, |file|);
      DataWellFormed(nickname, filename, file[n..], Zeros(CHUNK));
      assert WellFormed(Filled(MSG_FILE_DATA, nickname, file[..n] + stale[n..], filename, n));
    }
  }

  /** Every packet of an upload can be encoded. */
  lemma {:induction false} UploadWellFormed(nickname: Bytes, filename: Bytes, file: Bytes, stale: Bytes)
    requires |stale| == CHUNK
    ensures AllWellFormed(Upload(nickname, filename, file, stale))
  {
    DataWellFormed(nickname, filename, file, stale);
  }

  /** A file sent as bytes over a connection: what the receiver saves is what arrives of the source. */
  lemma {:induction false} UploadOverStream(r: Receiver, nickname: Bytes, filename: Bytes, file: Bytes, stale: Bytes)
    requires |stale| == CHUNK
    ensures AllWellFormed(Upload(nickname, filename, file, stale))
    ensures ReceiveAll(r, DecodeAll(Split(Wire(Upload(nickname, filename, file, stale)))))
         == Receiver(false, FileArrived(file), r.saved + [FileArrived(file)])
  {
    var ps := Upload(nickname, filename, file, stale);
    UploadWellFormed(nickname, filename, file, stale);
    WireRoundTrip(ps);
    UploadIsFiles(nickname, filename, file, stale);
    UploadArrives(r, ps, nickname, filename, file, stale);
  }

  lemma {:induction false} FilePacketsAll(ps: seq<ChatPacket>)
    requires forall i :: 0 <= i < |ps| ==> AboutFiles(ps[i])
    ensures FilePackets(ps) == ps
  {
    if ps != [] { FilePacketsAll(ps[1..]); }
  }

  lemma {:induction false} DataIsFiles(nickname: Bytes, filename: Bytes, file: Bytes, stale: Bytes)
    requires |stale| == CHUNK
    ensures forall i :: 0 <= i < |DataPackets(nickname, filename, file, stale)| ==>
              AboutFiles(DataPackets(nickname, filename, file, stale)[i])
    decreases |file|
  {
    if file != [] { DataIsFiles(nickname, filename, file[Least(CHUNK, |file|)..], Zeros(CHUNK)); }
  }

  lemma {:induction false} UploadIsFiles(nickname: Bytes, filename: Bytes, file: Bytes, stale: Bytes)
    requires |stale| == CHUNK
    ensures FilePackets(Upload(nickname, filename, file, stale)) == Upload(nickname, filename, file, stale)
  {
    DataIsFiles(nickname, filename, file, stale);
    FilePacketsAll(Upload(nickname, filename, file, stale));
  }

  lemma {:induction false} Regroup(a: seq<ChatPacket>, b: seq<ChatPacket>, c: seq<ChatPacket>)
    ensures a + (b + c) == a + b + c
  {
  }

  // ----- several uploads -----

  /** One upload: who sends which file under which name, and what its chunk buffer holds at first. */
  datatype Source = Source(nickname: Bytes, filename: Bytes, file: Bytes, stale: Bytes)

  predicate Sources(us: seq<Source>) {
    forall i :: 0 <= i < |us| ==> |us[i].stale| == CHUNK
  }

  /** The packets of uploads one after the other. */
  function Uploads(us: seq<Source>): seq<ChatPacket>
    requires Sources(us)
  {
    if us == [] then []
    else Upload(us[0].nickname, us[0].filename, us[0].file, us[0].stale) + Uploads(us[1..])
  }

  function Arrived(us: seq<Source>): (files: seq<Bytes>)
    ensures |files| == |us|
  {
    seq(|us|, i requires 0 <= i < |us| => FileArrived(us[i].file))
  }

  lemma {:induction false} UploadsReceived(r: Receiver, us: seq<Source>)
    requires Sources(us)
    ensures var after := ReceiveAll(r, Uploads(us));
            if us == [] then after == r else !after.rxOpen && after.saved == r.saved + Arrived(us)
    decreases |us|
  {
    if us != [] {
      var u, rest := us[0], us[1..];
      var ps := Upload(u.nickname, u.filename, u.file, u.stale);
      UploadIsFiles(u.nickname, u.filename, u.file, u.stale);
      UploadArrives(r, ps, u.nickname, u.filename, u.file, u.stale);
      ReceiveConcat(r, ps, Uploads(rest));
      UploadsReceived(ReceiveAll(r, ps), rest);
      assert Arrived(us) == [FileArrived(u.file)] + Arrived(rest);
      assert r.saved + [FileArrived(u.file)] + Arrived(rest) == r.saved + ([FileArrived(u.file)] + Arrived(rest));
      if rest == [] { assert r.saved + Arrived(us) == r.saved + [FileArrived(u.file)]; }
    }
  }

  /** However many uploads there are, one after the other and among whatever else is said: the files saved are what
      arrives of each source, in order. */
  lemma {:induction false} UploadsArrive(r: Receiver, ps: seq<ChatPacket>, us: seq<Source>)
    requires Sources(us) && FilePackets(ps) == Uploads(us)
    ensures ReceiveAll(r, ps).saved == r.saved + Arrived(us)
    ensures if us == [] then ReceiveAll(r, ps) == r else !ReceiveAll(r, ps).rxOpen
  {
    OthersIgnored(r, ps);
    UploadsReceived(r, us);
    if us == [] { assert r.saved + Arrived(us) == r.saved; }
  }

  lemma {:induction false} FilePacketsConcat(ps: seq<ChatPacket>, qs: seq<ChatPacket>)
    ensures FilePackets(ps + qs) == FilePackets(ps) + FilePackets(qs)
  {
    if ps == [] {
      assert ps + qs == qs;
    } else {
      assert (ps + qs)[1..] == ps[1..] + qs;
      FilePacketsConcat(ps[1..], qs);
      Regroup(if AboutFiles(ps[0]) then [ps[0]] else [], FilePackets(ps[1..]), FilePackets(qs));
    }
  }

  lemma {:induction false} OneFilePacket(p: ChatPacket)
    ensures FilePackets([p]) == if AboutFiles(p) then [p] else []
  {
    assert [p][1..] == [];
  }

  // ----- in the middle of an upload -----

  lemma {:induction false} NothingSaved(r: Receiver, ps: seq<ChatPacket>)
    requires forall i :: 0 <= i < |ps| ==> ps[i].kind != MSG_FILE_END
    ensures ReceiveAll(r, ps).saved == r.saved
    decreases |ps|
  {
    if ps != [] { NothingSaved(Receive(r, ps[0]), ps[1..]); }
  }

  lemma {:induction false} DataHasNoEnd(nickname: Bytes, filename: Bytes, file: Bytes, stale: Bytes)
    requires |stale| == CHUNK
    ensures forall i :: 0 <= i < |DataPackets(nickname, filename, file, stale)| ==>
              DataPackets(nickname, filename, file, stale)[i].kind == MSG_FILE_DATA
    decreases |file|
  {
    if file != [] { DataHasNoEnd(nickname, filename, file[Least(CHUNK, |file|)..], Zeros(CHUNK)); }
  }

  function UploadOf(u: Source): seq<ChatPacket>
    requires |u.stale| == CHUNK
  {
    Upload(u.nickname, u.filename, u.file, u.stale)
  }

  /** An upload ends with its last packet and not before. */
  lemma {:induction false} EndIsLast(u: Source, m: nat)
    requires |u.stale| == CHUNK && m < |UploadOf(u)|
    ensures forall i :: 0 <= i < m ==> UploadOf(u)[..m][i].kind != MSG_FILE_END
  {
    DataHasNoEnd(u.nickname, u.filename, u.file, u.stale);
    var data := DataPackets(u.nickname, u.filename, u.file, u.stale);
    forall i | 0 <= i < m ensures UploadOf(u)[..m][i].kind != MSG_FILE_END {
      if i > 0 { assert UploadOf(u)[i] == data[i - 1]; }
    }
  }

  /** Finished uploads and the first m packets of one that goes on, m of 0 included: the files saved are what arrives of
      the finished ones, in order. */
  lemma {:induction false} UploadsInProgress(r: Receiver, ps: seq<ChatPacket>, us: seq<Source>, u: Source, m: nat)
    requires Sources(us) && |u.stale| == CHUNK && m < |UploadOf(u)|
    requires FilePackets(ps) == Uploads(us) + UploadOf(u)[..m]
    ensures ReceiveAll(r, ps).saved == r.saved + Arrived(us)
  {
    OthersIgnored(r, ps);
    ReceiveConcat(r, Uploads(us), UploadOf(u)[..m]);
    UploadsReceived(r, us);
    EndIsLast(u, m);
    NothingSaved(ReceiveAll(r, Uploads(us)), UploadOf(u)[..m]);
    if us == [] { assert r.saved + Arrived(us) == r.saved; }
  }

  // ----- names -----

  /** A string field reads back as the text up to its first NUL, cut to the field's room. */
  lemma {:induction false} FieldReads(text: Bytes, n: nat, size: nat)
    requires n < size
    ensures CString(StringField(text, n, size)) == CString(text)[..Least(n, |CString(text)|)]
  {
    var f, s := StringField(text, n, size), CString(text);
    var r := s[..Least(n, |s|)];
    assert forall j :: 0 <= j < |r| ==> text[j] == s[j] && s[j] in s;
    forall j | 0 <= j < |r| ensures f[j] == r[j] {
      assert forall i :: 0 <= i < j ==> text[..j][i] == s[i] && s[i] in s;
    }
    FieldEnds(text, n, size);
    assert f[..|r|] == r && 0 !in r;
    CStringUpTo(f, |r|);
  }

  lemma {:induction false} FieldEnds(text: Bytes, n: nat, size: nat)
    requires n < size
    ensures StringField(text, n, size)[Least(n, |CString(text)|)] == 0
  {
    var s := CString(text);
    var k := Least(n, |s|);
    if k < n && k < |text| { assert text[k] == 0; }
  }

  lemma {:induction false} CStringUpTo(b: Bytes, n: nat)
    requires n < |b| && 0 !in b[..n] && b[n] == 0
    ensures CString(b) == b[..n]
  {
    if n > 0 {
      assert b[0] == b[..n][0];
      assert b[1..][..n - 1] == b[..n][1..];
      assert forall x :: x in b[1..][..n - 1] ==> x in b[..n];
      CStringUpTo(b[1..], n - 1);
    }
  }

  /** Who and which file a packet names. */
  ghost predicate Names(p: ChatPacket, nickname: Bytes, filename: Bytes) {
    && CString(p.nickname) == CString(nickname)[..Least(31, |CString(nickname)|)]
    && CString(p.filename) == CString(filename)[..Least(255, |CString(filename)|)]
  }

  lemma {:induction false} FilledNames(kind: nat, nickname: Bytes, text: Bytes, filename: Bytes, dataLen: nat)
    ensures Names(Filled(kind, nickname, text, filename, dataLen), nickname, filename)
  {
    FieldReads(nickname, MAX_NICK - 1, MAX_NICK);
    FieldReads(filename, MAX_FILENAME - 1, MAX_FILENAME);
  }

  lemma {:induction false} DataNames(nickname: Bytes, filename: Bytes, file: Bytes, stale: Bytes)
    requires |stale| == CHUNK
    ensures forall p :: p in DataPackets(nickname, filename, file, stale) ==> Names(p, nickname, filename)
    decreases |file|
  {
    if file != [] {
      var n := Least(CHUNK, |file|);
      FilledNames(MSG_FILE_DATA, nickname, file[..n] + stale[n..], filename, n);
      DataNames(nickname, filename, file[n..], Zeros(CHUNK));
    }
  }

  /** Every packet of an upload names its sender and its file, the one cut to 31 bytes, the other to 255. */
  lemma {:induction false} UploadNames(nickname: Bytes, filename: Bytes, file: Bytes, stale: Bytes)
    requires |stale| == CHUNK
    ensures forall p :: p in Upload(nickname, filename, file, stale) ==> Names(p, nickname, filename)
  {
    DataNames(nickname, filename, file, stale);
    FilledNames(MSG_FILE_START, nickname, [], filename, 0);
    FilledNames(MSG_FILE_END, nickname, [], filename, 0);
  }

  /** File data and ends that no start precedes, and all packets that are not about files, change nothing. */
  lemma {:induction false} StrayIgnored(r: Receiver, p: ChatPacket)
    requires !AboutFiles(p) || (!r.rxOpen && p.kind != 4)
    ensures Receive(r, p) == r
  {
  }
}
