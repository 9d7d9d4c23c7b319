/** A file on its whole way: from the uploading client's bytes through the relay server to another client's disk. */
module FileRelay {
  import opened Basics
  import opened ByteStreams
  import opened FileTransfer
  import opened RelayRuns

  ghost predicate EntriesWhole(es: seq<Entry>) {
    forall i :: 0 <= i < |es| ==> |es[i].packet| == PACKET_SIZE
  }

  /** The packets a client decodes from what was relayed to it. */
  function Decoded(es: seq<Entry>): (ps: seq<ChatPacket>)
    requires forall i :: 0 <= i < |es| ==> |es[i].packet| == PACKET_SIZE
    ensures |ps| == |es|
  {
    seq(|es|, i requires 0 <= i < |es| => Decode(es[i].packet))
  }

  /** Nobody but x sends packets about files. */
  ghost predicate OnlyUploader(es: seq<Entry>, x: int) {
    forall i :: 0 <= i < |es| && es[i].from != x && |es[i].packet| == PACKET_SIZE ==> !AboutFiles(Decode(es[i].packet))
  }

  lemma {:induction false} OthersWhole(log: seq<Entry>, fd: int)
    requires EntriesWhole(log)
    ensures EntriesWhole(Others(log, fd))
  {
    if log != [] { OthersWhole(log[..|log| - 1], fd); }
  }

  lemma {:induction false} FromWhole(log: seq<Entry>, x: int)
    requires EntriesWhole(log)
    ensures WholePackets(From(log, x))
  {
    if log != [] { FromWhole(log[..|log| - 1], x); }
  }

  lemma {:induction false} DecodeAppend(bs: seq<Bytes>, b: Bytes)
    requires WholePackets(bs) && |b| == PACKET_SIZE
    ensures WholePackets(bs + [b]) && DecodeAll(bs + [b]) == DecodeAll(bs) + [Decode(b)]
  {
  }

  lemma {:induction false} DecodedAppend(es: seq<Entry>, e: Entry)
    requires EntriesWhole(es) && |e.packet| == PACKET_SIZE
    ensures EntriesWhole(es + [e]) && Decoded(es + [e]) == Decoded(es) + [Decode(e.packet)]
  {
  }

  /** The packets about files among all relayed ones are those among the uploader's. */
  lemma {:induction false} FilesFromUploader(es: seq<Entry>, x: int)
    requires EntriesWhole(es) && OnlyUploader(es, x)
    ensures WholePackets(From(es, x))
    ensures FilePackets(Decoded(es)) == FilePackets(DecodeAll(From(es, x)))
  {
    FromWhole(es, x);
    if es != [] {
      var init, last := es[..|es| - 1], es[|es| - 1];
      FilesFromUploader(init, x);
      assert es == init + [last];
      DecodedAppend(init, last);
      FilePacketsConcat(Decoded(init), [Decode(last.packet)]);
      OneFilePacket(Decode(last.packet));
      LogStep(init, last, x);
      if last.from == x {
        FromWhole(init, x);
        DecodeAppend(From(init, x), last.packet);
        FilePacketsConcat(DecodeAll(From(init, x)), [Decode(last.packet)]);
      } else {
        assert From(init, x) + [] == From(init, x);
      }
    }
  }

  /** None of the packets is about files. */
  ghost predicate NoFiles(bs: seq<Bytes>) {
    forall i :: 0 <= i < |bs| && |bs[i]| == PACKET_SIZE ==> !AboutFiles(Decode(bs[i]))
  }

  lemma {:induction false} NoFilePackets(ps: seq<ChatPacket>)
    requires forall i :: 0 <= i < |ps| ==> !AboutFiles(ps[i])
    ensures FilePackets(ps) == []
  {
    if ps != [] { NoFilePackets(ps[1..]); }
  }

  lemma {:induction false} DecodeConcat(bs: seq<Bytes>, cs: seq<Bytes>)
    requires WholePackets(bs) && WholePackets(cs)
    ensures WholePackets(bs + cs) && DecodeAll(bs + cs) == DecodeAll(bs) + DecodeAll(cs)
  {
  }

  /** Packets in front that are not about files may be left out. */
  lemma {:induction false} FilesBehind(before: seq<Bytes>, got: seq<Bytes>)
    requires WholePackets(before) && WholePackets(got) && NoFiles(before)
    ensures WholePackets(before + got) && FilePackets(DecodeAll(before + got)) == FilePackets(DecodeAll(got))
  {
    DecodeConcat(before, got);
    FilePacketsConcat(DecodeAll(before), DecodeAll(got));
    NoFilePackets(DecodeAll(before));
    assert [] + FilePackets(DecodeAll(got)) == FilePackets(DecodeAll(got));
  }

  /** What a client heard since it and the sender x were both connected. */
  function Heard(s: State, fd: int, x: int): seq<Entry>
    requires Known(s, fd) && Known(s, x)
  {
    Others(s.log[Together(s, fd, x)..], fd)
  }

  /** The packets of the sender x that were relayed before the client joined. */
  function Missed(s: State, fd: int, x: int): seq<Bytes>
    requires Known(s, fd) && Known(s, x)
  {
    From(s.log[s.conns[x].joined..Together(s, fd, x)], x)
  }

  lemma {:induction false} HeardFiles(s: State, fd: int, x: int)
    requires Known(s, fd) && Known(s, x) && x != fd && EntriesWhole(s.log)
    requires NoFiles(Missed(s, fd, x)) && OnlyUploader(Heard(s, fd, x), x)
    ensures EntriesWhole(Heard(s, fd, x)) && WholePackets(From(s.log[s.conns[x].joined..], x))
    ensures FilePackets(Decoded(Heard(s, fd, x))) == FilePackets(DecodeAll(From(s.log[s.conns[x].joined..], x)))
  {
    var heard, missed := Heard(s, fd, x), Missed(s, fd, x);
    OthersWhole(s.log[Together(s, fd, x)..], fd);
    FilesFromUploader(heard, x);
    SinceTogether(s, fd, x);
    FromWhole(s.log[s.conns[x].joined..Together(s, fd, x)], x);
    FilesBehind(missed, From(heard, x));
  }

  /** What was relayed of the sender x altogether. */
  function RelayedOf(s: State, x: int): seq<Bytes>
    requires Known(s, x)
  {
    From(s.log[s.conns[x].joined..], x)
  }

  lemma {:induction false} RelayedWhole(schedule: seq<Action>, x: int)
    requires x in Run(schedule).conns
    ensures Known(Run(schedule), x) && EntriesWhole(Run(schedule).log) && WholePackets(RelayedOf(Run(schedule), x))
  {
    var s := Run(schedule);
    RunInv(schedule);
    assert ConnOK(s, x);
    FromWhole(s.log[s.conns[x].joined..], x);
  }

  /** In every run and at every moment of it, for every client and every uploader, in whatever order they joined, and
      whether the uploader goes on sending or has left: if what was relayed of the uploader holds finished uploads one
      after the other and m packets of one that is not finished, among whatever else it says, none of their packets was
      relayed before the client joined and nobody else sends packets about files meanwhile, then the client has saved
      exactly the files finished, what arrives of each source. */
  lemma {:induction false} UploadThroughRelay(schedule: seq<Action>, fd: int, x: int, r: Receiver,
                                              us: seq<Source>, u: Source, m: nat)
    requires fd in Run(schedule).clients && x in Run(schedule).conns && x != fd
    requires Sources(us) && |u.stale| == CHUNK && m < |UploadOf(u)|
    requires var s := Run(schedule);
             && Known(s, fd) && Known(s, x) && WholePackets(RelayedOf(s, x))
             && FilePackets(DecodeAll(RelayedOf(s, x))) == Uploads(us) + UploadOf(u)[..m]
             && NoFiles(Missed(s, fd, x)) && OnlyUploader(Heard(s, fd, x), x)
    ensures var heard := Heard(Run(schedule), fd, x);
            && EntriesWhole(heard)
            && ReceiveAll(r, Decoded(heard)).saved == r.saved + Arrived(us)
            && (m == 0 && us != [] ==> !ReceiveAll(r, Decoded(heard)).rxOpen)
  {
    var s := Run(schedule);
    RelayedWhole(schedule, x);
    HeardFiles(s, fd, x);
    UploadsInProgress(r, Decoded(Heard(s, fd, x)), us, u, m);
    if m == 0 && us != [] {
      assert Uploads(us) + UploadOf(u)[..m] == Uploads(us);
      UploadsArrive(r, Decoded(Heard(s, fd, x)), us);
    }
  }

  /** The same said of the bytes the server read of the uploader, as long as these are whole packets, which they are
      unless it closed in the middle of one. */
  lemma {:induction false} UploadFromStream(schedule: seq<Action>, fd: int, x: int, r: Receiver,
                                            us: seq<Source>, u: Source, m: nat)
    requires fd in Run(schedule).clients && x in Run(schedule).conns && x != fd
    requires Sources(us) && |u.stale| == CHUNK && m < |UploadOf(u)|
    requires var d := Run(schedule).conns[x];
             && d.read <= |d.stream| && d.read % PACKET_SIZE == 0
             && FilePackets(DecodeAll(Split(d.stream[..d.read]))) == Uploads(us) + UploadOf(u)[..m]
    requires var s := Run(schedule);
             && Known(s, fd) && Known(s, x)
             && NoFiles(Missed(s, fd, x)) && OnlyUploader(Heard(s, fd, x), x)
    ensures var heard := Heard(Run(schedule), fd, x);
            && EntriesWhole(heard)
            && ReceiveAll(r, Decoded(heard)).saved == r.saved + Arrived(us)
            && (m == 0 && us != [] ==> !ReceiveAll(r, Decoded(heard)).rxOpen)
  {
    SenderInOrder(schedule, x);
    RelayedWhole(schedule, x);
    UploadThroughRelay(schedule, fd, x, r, us, u, m);
  }
}
