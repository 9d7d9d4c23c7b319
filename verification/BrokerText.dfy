/** The text protocol of the broker: what publisher and subscriber print, what the broker scans. */
module BrokerText {
  import opened Basics

  const MAX_TEXT := 511
  const MAX_TOPIC := 63

  predicate IsSpace(c: char) {
    c == ' ' || c == '\t' || c == '\n' || c == '\r' || c == 11 as char || c == 12 as char
  }

  /** What snprintf leaves of a text in a 512-byte buffer. */
  function Fit(s: string): (r: string)
    ensures |r| <= MAX_TEXT && r <= s
  {
    s[..Least(|s|, MAX_TEXT)]
  }

  /** A topic cut to what the tables can hold. */
  function Cut(topic: string): (r: string)
    ensures |r| <= MAX_TOPIC && r <= topic
  {
    topic[..Least(|topic|, MAX_TOPIC)]
  }

  // ----- what the clients print -----

  const SUBSCRIBE := "subscribe,"
  const UNSUBSCRIBE := "unsubscribe,"
  const SEND := "send,"

  function SubscribeText(pid: nat, topic: string): string {
    Fit(SUBSCRIBE + Decimal(pid) + "," + topic)
  }

  function UnsubscribeText(pid: nat, topic: string): string {
    Fit(UNSUBSCRIBE + Decimal(pid) + "," + topic)
  }

  function SendText(pid: nat, topic: string, line: string): string {
    Fit(SEND + Decimal(pid) + "," + topic + "," + line)
  }

  // ----- what the broker scans -----

  /** The length of the longest run of digits a text starts with. */
  function DigitRun(s: string): (n: nat)
    ensures n <= |s| && forall i :: 0 <= i < n ==> IsDigit(s[i])
    ensures n < |s| ==> !IsDigit(s[n])
  {
    if s == "" || !IsDigit(s[0]) then 0 else 1 + DigitRun(s[1..])
  }

  /** How many white-space characters a text starts with. */
  function SpaceRun(s: string): (n: nat)
    ensures n <= |s| && forall i :: 0 <= i < n ==> IsSpace(s[i])
    ensures n < |s| ==> !IsSpace(s[n])
  {
    if s == "" || !IsSpace(s[0]) then 0 else 1 + SpaceRun(s[1..])
  }

  /** How many non-white-space characters a text starts with, counting no further than max. */
  function WordRun(s: string, max: nat): (n: nat)
    ensures n <= |s| && n <= max && forall i :: 0 <= i < n ==> !IsSpace(s[i])
    ensures n < |s| && n < max ==> IsSpace(s[n])
  {
    if s == "" || max == 0 || IsSpace(s[0]) then 0 else 1 + WordRun(s[1..], max - 1)
  }

  /** sscanf's %d: white space, a sign, digits; the number and how many characters it took. */
  function ScanInt(s: string): (r: Option<(int, nat)>)
    ensures r.Some? ==> r.value.1 <= |s|
  {
    var t := SpaceRun(s);
    var signed := t < |s| && (s[t] == '-' || s[t] == '+');
    var u := if signed then t + 1 else t;
    var n := DigitRun(s[u..]);
    if n == 0 then None
    else
      var v: int := DecimalNumber(s[u..][..n]);
      Some((if signed && s[t] == '-' then -v else v, u + n))
  }

  /** sscanf's %63s: white space, then at most 63 other characters, at least one. */
  function ScanWord(s: string): (r: Option<string>)
    ensures r.Some? ==> 0 < |r.value| <= MAX_TOPIC
  {
    var t := SpaceRun(s);
    var n := WordRun(s[t..], MAX_TOPIC);
    if n == 0 then None else Some(s[t..][..n])
  }

  /** What follows the word "subscribe," or "unsubscribe,": a pid, a comma, a topic. */
  function ScanRequest(s: string): (r: Option<(int, string)>)
    ensures r.Some? ==> 0 < |r.value.1| <= MAX_TOPIC
  {
    var n := ScanInt(s);
    if n.None? || n.value.1 >= |s| || s[n.value.1] != ',' then None
    else
      var w := ScanWord(s[n.value.1 + 1..]);
      if w.None? then None else Some((n.value.0, w.value))
  }

  /** strchr for a comma: how many characters stand in front of the first one. */
  function CommaAt(s: string): (r: Option<nat>)
    ensures r.Some? ==> r.value < |s| && s[r.value] == ',' && ',' !in s[..r.value]
    ensures r.None? ==> ',' !in s
  {
    if s == "" then None
    else if s[0] == ',' then Some(0)
    else
      var r := CommaAt(s[1..]);
      if r.None? then None else Some(1 + r.value)
  }

  /** What follows "send,": the topic between the next two commas, cut to 63 characters, and all behind them. */
  function ScanSend(s: string): (r: Option<(string, string)>)
    ensures r.Some? ==> |r.value.0| <= MAX_TOPIC
  {
    var c2 := CommaAt(s);
    if c2.None? then None
    else
      var rest := s[c2.value + 1..];
      var c3 := CommaAt(rest);
      if c3.None? then None else Some((Cut(rest[..c3.value]), rest[c3.value + 1..]))
  }

  /** atoi: like %d, but 0 when there is no number. */
  function Atoi(s: string): int {
    var n := ScanInt(s);
    if n.None? then 0 else n.value.0
  }

  datatype Command =
    | Subscribe(pid: int, topic: string)
    | Unsubscribe(pid: int, topic: string)
    | Publish(pid: int, topic: string, payload: string)
    | Ignored

  /** The broker's dispatcher and its three scanners. */
  function Parse(text: string): Command {
    if SUBSCRIBE <= text then
      var r := ScanRequest(text[|SUBSCRIBE|..]);
      if r.None? then Ignored else Subscribe(r.value.0, r.value.1)
    else if UNSUBSCRIBE <= text then
      var r := ScanRequest(text[|UNSUBSCRIBE|..]);
      if r.None? then Ignored else Unsubscribe(r.value.0, r.value.1)
    else if SEND <= text then
      var r := ScanSend(text[|SEND|..]);
      if r.None? then Ignored else Publish(Atoi(text[|SEND|..]), r.value.0, r.value.1)
    else Ignored
  }

  /** What is sent on to a subscriber. */
  function RoutedText(topic: string, payload: string): string {
    Fit("[" + topic + "]: " + payload)
  }

  // ----- numbers survive -----

  lemma {:induction false} DigitsRun(d: string, rest: string)
    requires forall i :: 0 <= i < |d| ==> IsDigit(d[i])
    requires rest != "" ==> !IsDigit(rest[0])
    ensures DigitRun(d + rest) == |d|
  {
    if d == "" {
      assert d + rest == rest;
    } else {
      assert (d + rest)[1..] == d[1..] + rest;
      DigitsRun(d[1..], rest);
    }
  }

  lemma {:induction false} ScanDecimal(n: nat, rest: string)
    requires rest != "" ==> !IsDigit(rest[0])
    ensures ScanInt(Decimal(n) + rest) == Some((n as int, |Decimal(n)|))
  {
    var d := Decimal(n);
    var s := d + rest;
    assert s[0] == d[0];
    assert s[0..] == s;
    DigitsRun(d, rest);
    assert s[..|d|] == d;
    DecimalRoundTrip(n);
  }

  /** Pids are 32-bit integers. */
  const PIDS := 0x8000_0000

  lemma {:induction false} PidLength(pid: nat)
    requires pid < PIDS
    ensures |Decimal(pid)| <= 10
  {
    assert PowerOfTen(10) == 10_000_000_000;
    DecimalLength(pid, 10);
  }

  lemma {:induction false} CommaFound(front: string, rest: string)
    requires ',' !in front
    ensures CommaAt(front + "," + rest) == Some(|front|)
  {
    var s := front + "," + rest;
    assert s[|front|] == ',' && s[..|front|] == front;
    var r := CommaAt(s);
    assert forall i :: 0 <= i < |front| ==> s[..|front|][i] == s[i];
    assert r.Some? && r.value >= |front|;
    assert forall i :: 0 <= i < r.value ==> s[..r.value][i] != ',';
  }

  // ----- requests -----

  /** The characters of a topic that fit into a request. */
  function Kept(verb: string, pid: nat, topic: string): (r: string)
    requires |verb| <= 12 && |Decimal(pid)| <= 10
    ensures r <= topic && (|topic| <= |r| || |r| >= 488)
  {
    topic[..Least(|topic|, MAX_TEXT - |verb| - |Decimal(pid)| - 1)]
  }

  lemma {:induction false} RequestScanned(pid: nat, t: string)
    ensures ScanRequest(Decimal(pid) + "," + t)
         == if ScanWord(t).None? then None else Some((pid as int, ScanWord(t).value))
  {
    var s := Decimal(pid) + "," + t;
    assert s == Decimal(pid) + ("," + t);
    ScanDecimal(pid, "," + t);
    assert s[|Decimal(pid)|] == ',' && s[|Decimal(pid)| + 1..] == t;
  }

  lemma {:induction false} RequestFits(verb: string, pid: nat, topic: string)
    requires |verb| <= 12 && |Decimal(pid)| <= 10
    ensures var text := Fit(verb + Decimal(pid) + "," + topic);
            verb <= text && text[|verb|..] == Decimal(pid) + "," + Kept(verb, pid, topic)
  {
    var whole := verb + Decimal(pid) + "," + topic;
    assert whole == verb + (Decimal(pid) + "," + topic);
  }

  /** What the broker makes of a subscription, for every pid and every topic whatsoever. */
  lemma {:induction false} SubscribeParsed(pid: nat, topic: string)
    requires pid < PIDS
    ensures |Decimal(pid)| <= 10
    ensures var w := ScanWord(Kept(SUBSCRIBE, pid, topic));
            Parse(SubscribeText(pid, topic)) == if w.None? then Ignored else Subscribe(pid, w.value)
  {
    PidLength(pid);
    RequestFits(SUBSCRIBE, pid, topic);
    RequestScanned(pid, Kept(SUBSCRIBE, pid, topic));
  }

  lemma {:induction false} UnsubscribeParsed(pid: nat, topic: string)
    requires pid < PIDS
    ensures |Decimal(pid)| <= 10
    ensures var w := ScanWord(Kept(UNSUBSCRIBE, pid, topic));
            Parse(UnsubscribeText(pid, topic)) == if w.None? then Ignored else Unsubscribe(pid, w.value)
  {
    PidLength(pid);
    RequestFits(UNSUBSCRIBE, pid, topic);
    RequestScanned(pid, Kept(UNSUBSCRIBE, pid, topic));
    assert UnsubscribeText(pid, topic)[0] == 'u';
  }

  /** No white space among the first 63 characters of a non-empty topic. */
  predicate Unspaced(topic: string) {
    topic != "" && forall i :: 0 <= i < |topic| && i < MAX_TOPIC ==> !IsSpace(topic[i])
  }

  /** %63s returns the cut topic exactly for these. */
  lemma {:induction false} WordIsCut(topic: string)
    ensures ScanWord(topic) == Some(Cut(topic)) <==> Unspaced(topic)
  {
    var t := SpaceRun(topic);
    if Unspaced(topic) {
      assert t == 0;
      assert topic[0..] == topic;
    } else if ScanWord(topic).Some? {
      var w := ScanWord(topic).value;
      assert forall i :: 0 <= i < |w| ==> !IsSpace(w[i]);
      var j :| 0 <= j < |topic| && j < MAX_TOPIC && IsSpace(topic[j]);
      assert Cut(topic)[j] == topic[j];
    }
  }

  // ----- publications -----

  /** How many characters of the line are left once number and topic are printed. */
  function Room(pid: nat, topic: string): int {
    MAX_TEXT - |SEND| - |Decimal(pid)| - 1 - |topic| - 1
  }

  lemma {:induction false} SendVerb(s: string, text: string)
    requires text == SEND + s
    ensures !(SUBSCRIBE <= text) && !(UNSUBSCRIBE <= text) && SEND <= text && text[|SEND|..] == s
  {
    assert text[0] == 's' && text[1] == 'e' && SUBSCRIBE[1] == 'u' && UNSUBSCRIBE[0] == 'u';
  }

  lemma {:induction false} Dispatched(s: string, text: string)
    requires text == SEND + s
    ensures var r := ScanSend(s);
            Parse(text) == if r.None? then Ignored else Publish(Atoi(s), r.value.0, r.value.1)
  {
    SendVerb(s, text);
  }

  /** What is left of topic and line in a publication. */
  function SendRest(pid: nat, topic: string, line: string): (r: string)
    requires |Decimal(pid)| <= 505
  {
    var rest := topic + "," + line;
    rest[..Least(|rest|, MAX_TEXT - |SEND| - |Decimal(pid)| - 1)]
  }

  lemma {:induction false} SendFits(pid: nat, topic: string, line: string)
    requires |Decimal(pid)| <= 505
    ensures SendText(pid, topic, line) == SEND + (Decimal(pid) + "," + SendRest(pid, topic, line))
  {
    var rest := topic + "," + line;
    var whole := SEND + Decimal(pid) + "," + topic + "," + line;
    assert whole == SEND + Decimal(pid) + "," + rest;
    var front := SEND + Decimal(pid) + ",";
    assert Fit(front + rest) == front + SendRest(pid, topic, line);
  }

  lemma {:induction false} SendScanned(d: string, rest: string)
    requires ',' !in d
    ensures var c := CommaAt(rest);
            ScanSend(d + "," + rest) == if c.None? then None else Some((Cut(rest[..c.value]), rest[c.value + 1..]))
  {
    CommaFound(d, rest);
    assert (d + "," + rest)[|d| + 1..] == rest;
  }

  lemma {:induction false} NumberRead(pid: nat, rest: string)
    ensures Atoi(Decimal(pid) + "," + rest) == pid
  {
    assert Decimal(pid) + "," + rest == Decimal(pid) + ("," + rest);
    ScanDecimal(pid, "," + rest);
  }

  lemma {:induction false} SendRead(pid: nat, topic: string, line: string)
    requires |Decimal(pid)| <= 505
    ensures var rest := SendRest(pid, topic, line);
            var c := CommaAt(rest);
            Parse(SendText(pid, topic, line))
            == if c.None? then Ignored else Publish(pid, Cut(rest[..c.value]), rest[c.value + 1..])
  {
    var d, rest := Decimal(pid), SendRest(pid, topic, line);
    SendFits(pid, topic, line);
    Dispatched(d + "," + rest, SendText(pid, topic, line));
    SendScanned(d, rest);
    NumberRead(pid, rest);
  }

  /** A publication under a topic without commas that fits arrives with its pid, its cut topic and as much of its line,
      commas included, as fits. */
  lemma {:induction false} SendParsed(pid: nat, topic: string, line: string)
    requires ',' !in topic && Room(pid, topic) >= 0
    ensures Parse(SendText(pid, topic, line)) == Publish(pid, Cut(topic), line[..Least(|line|, Room(pid, topic))])
  {
    SendRead(pid, topic, line);
    RestPieces(pid, topic, line);
  }

  lemma {:induction false} RestPieces(pid: nat, topic: string, line: string)
    requires ',' !in topic && Room(pid, topic) >= 0
    ensures var rest := SendRest(pid, topic, line);
            && CommaAt(rest) == Some(|topic|) && rest[..|topic|] == topic
            && rest[|topic| + 1..] == line[..Least(|line|, Room(pid, topic))]
  {
    PrefixPieces(topic, line, MAX_TEXT - |SEND| - |Decimal(pid)| - 1);
    CommaFound(topic, line[..Least(|line|, Room(pid, topic))]);
  }

  lemma {:induction false} PrefixPieces(topic: string, line: string, n: nat)
    requires |topic| + 1 <= n
    ensures var whole := topic + "," + line;
            var kept := line[..Least(|line|, n - |topic| - 1)];
            var rest := whole[..Least(|whole|, n)];
            rest == topic + "," + kept && rest[..|topic|] == topic && rest[|topic| + 1..] == kept
  {
  }

  /** The topic a publication under `topic` is routed by: a comma ends it early. */
  function Published(topic: string): string {
    var c := CommaAt(topic);
    Cut(if c.Some? then topic[..c.value] else topic)
  }

  /** A comma ends the topic within the buffer: the one printed behind it, or one of its own. */
  predicate Carried(pid: nat, topic: string)
    requires |Decimal(pid)| <= 10
  {
    Room(pid, topic) >= 0 || ',' in Kept(SEND, pid, topic)
  }

  lemma {:induction false} CommaInPrefix(s: string, n: nat)
    requires n <= |s|
    ensures CommaAt(s[..n]) == if CommaAt(s).Some? && CommaAt(s).value < n then CommaAt(s) else None
  {
    if n > 0 && s[0] != ',' {
      assert s[..n][1..] == s[1..][..n - 1];
      CommaInPrefix(s[1..], n - 1);
    }
  }

  /** The first comma that ends the topic, and whether it is still in the buffer. */
  lemma {:induction false} TopicEnd(pid: nat, topic: string, line: string)
    requires |Decimal(pid)| <= 10
    ensures var c := CommaAt(SendRest(pid, topic, line));
            && (c.Some? <==> Carried(pid, topic))
            && (c.Some? ==> c == Some(if ',' in topic then CommaAt(topic).value else |topic|))
  {
    var rest := topic + "," + line;
    var k := MAX_TEXT - |SEND| - |Decimal(pid)| - 1;
    var c := CommaAt(topic);
    if c.Some? {
      var front, behind := topic[..c.value], topic[c.value + 1..];
      assert rest == front + "," + (behind + "," + line);
      CommaFound(front, behind + "," + line);
    } else {
      assert rest == topic + "," + line;
      CommaFound(topic, line);
    }
    CommaInPrefix(rest, Least(|rest|, k));
    CommaInPrefix(topic, Least(|topic|, k));
    assert Kept(SEND, pid, topic) == topic[..Least(|topic|, k)];
  }

  /** Every publication, of whatever topic, is routed by its published topic or dropped, and it is dropped exactly if
      no comma ends the topic within the buffer. */
  lemma {:induction false} SendTopic(pid: nat, topic: string, line: string)
    requires pid < PIDS
    ensures |Decimal(pid)| <= 10
    ensures var p := Parse(SendText(pid, topic, line));
            if Carried(pid, topic) then p.Publish? && p.pid == pid && p.topic == Published(topic) else p == Ignored
  {
    PidLength(pid);
    SendRead(pid, topic, line);
    RestTopic(pid, topic, line);
  }

  /** The topic the broker finds in the rest of a publication. */
  lemma {:induction false} RestTopic(pid: nat, topic: string, line: string)
    requires |Decimal(pid)| <= 10
    ensures var rest := SendRest(pid, topic, line);
            var c := CommaAt(rest);
            && (c.Some? <==> Carried(pid, topic))
            && (c.Some? ==> Cut(rest[..c.value]) == Published(topic))
  {
    TopicEnd(pid, topic, line);
    var rest := SendRest(pid, topic, line);
    var c := CommaAt(rest);
    if c.Some? {
      assert topic + "," + line == topic + ("," + line);
      FrontOf(topic, "," + line, |rest|, c.value);
      assert topic[..|topic|] == topic;
    }
  }

  lemma {:induction false} FrontOf(s: string, behind: string, n: nat, c: nat)
    requires c <= |s| && c <= n <= |s + behind|
    ensures (s + behind)[..n][..c] == s[..c]
  {
  }

  /** A publication is dropped exactly if its topic does not fit and has no comma in the part that does. */
  lemma {:induction false} SendDropped(pid: nat, topic: string, line: string)
    requires pid < PIDS
    ensures |Decimal(pid)| <= 10
    ensures Parse(SendText(pid, topic, line)) == Ignored
            <==> Room(pid, topic) < 0 && ',' !in Kept(SEND, pid, topic)
  {
    SendTopic(pid, topic, line);
  }

  // ----- what subscribers read -----

  /** A copy says topic and payload in full: the broker's own frame is shorter than the request's, so what fitted
      into a request fits into the copy. */
  lemma {:induction false} RoutedWhole(text: string)
    requires |text| <= MAX_TEXT && Parse(text).Publish?
    ensures var c := Parse(text); RoutedText(c.topic, c.payload) == "[" + c.topic + "]: " + c.payload
  {
    PublishedFrom(text);
    ScannedLength(text[|SEND|..]);
  }

  lemma {:induction false} PublishedFrom(text: string)
    requires Parse(text).Publish?
    ensures SEND <= text && ScanSend(text[|SEND|..]) == Some((Parse(text).topic, Parse(text).payload))
  {
  }

  lemma {:induction false} ScannedLength(s: string)
    requires ScanSend(s).Some?
    ensures |ScanSend(s).value.0| + |ScanSend(s).value.1| + 2 <= |s|
  {
  }

  /** Topic and payload can be told apart in a copy, unless the topic itself holds the closing bracket. */
  lemma {:induction false} CopyUnique(t1: string, p1: string, t2: string, p2: string)
    requires ']' !in t1 && ']' !in t2 && "[" + t1 + "]: " + p1 == "[" + t2 + "]: " + p2
    ensures t1 == t2 && p1 == p2
  {
    var r := "[" + t1 + "]: " + p1;
    assert r[1..|t1| + 1] == t1 && r[|t1| + 1] == ']' && r[|t1| + 4..] == p1;
    assert r[1..|t2| + 1] == t2 && r[|t2| + 1] == ']' && r[|t2| + 4..] == p2;
    assert forall i :: 0 <= i < |t1| ==> r[1..][i] == t1[i];
    assert forall i :: 0 <= i < |t2| ==> r[1..][i] == t2[i];
    assert r[1..][|t1|] == ']' && r[1..][|t2|] == ']';
  }

  // ----- who hears whom -----

  /** A topic that survives both paths: non-empty, no comma or white space among its first 63 characters. */
  predicate Clean(topic: string) {
    Unspaced(topic) && forall i :: 0 <= i < |topic| && i < MAX_TOPIC ==> topic[i] != ','
  }

  lemma {:induction false} PublishedClean(topic: string)
    requires Clean(topic)
    ensures Published(topic) == Cut(topic)
  {
  }

  lemma {:induction false} SubscribedClean(topic: string, kept: string)
    requires Unspaced(topic) && kept <= topic && (|topic| <= |kept| || |kept| >= MAX_TOPIC)
    ensures ScanWord(kept) == Some(Cut(topic))
  {
    assert Cut(kept) == Cut(topic);
    WordIsCut(kept);
  }

  /** For clean topics a publication that is carried reaches a subscription exactly when the two topics agree on their
      first 63 characters, although the two are cut by different code; both pids arrive, and the line of a topic
      without any comma arrives as far as it fits. */
  lemma {:induction false} Matching(spid: nat, subscribed: string, ppid: nat, published: string, line: string)
    requires spid < PIDS && ppid < PIDS && Clean(subscribed) && Clean(published)
    ensures |Decimal(ppid)| <= 10
    ensures var s, p := Parse(SubscribeText(spid, subscribed)), Parse(SendText(ppid, published, line));
            && s.Subscribe? && s.pid == spid
            && (p.Publish? <==> Carried(ppid, published))
            && (p.Publish? ==> p.pid == ppid && (s.topic == p.topic <==> Cut(subscribed) == Cut(published)))
            && (p.Publish? && ',' !in published ==> p.payload == line[..Least(|line|, Room(ppid, published))])
    ensures Parse(UnsubscribeText(spid, subscribed)) == Unsubscribe(spid, Cut(subscribed))
  {
    SubscribeParsed(spid, subscribed);
    SubscribedClean(subscribed, Kept(SUBSCRIBE, spid, subscribed));
    UnsubscribeParsed(spid, subscribed);
    SubscribedClean(subscribed, Kept(UNSUBSCRIBE, spid, subscribed));
    SendTopic(ppid, published, line);
    PublishedClean(published);
    if ',' !in published && Carried(ppid, published) { SendParsed(ppid, published, line); }
  }

  lemma {:induction false} WordIsPublished(topic: string, kept: string)
    requires kept <= topic && (|topic| <= |kept| || |kept| >= MAX_TOPIC)
    requires ScanWord(kept) == Some(Published(topic))
    ensures Clean(topic)
  {
    var w := Published(topic);
    assert w <= topic && w != "" && w[0] == topic[0] == kept[0];
    assert forall i :: 0 <= i < |ScanWord(kept).value| ==> !IsSpace(ScanWord(kept).value[i]);
    assert SpaceRun(kept) == 0 && kept[0..] == kept;
    assert |w| == WordRun(kept, MAX_TOPIC);
    assert |w| == Least(|topic|, MAX_TOPIC);
    assert forall i :: 0 <= i < |w| ==> topic[i] == w[i];
    var c := CommaAt(topic);
    assert c.Some? ==> |w| <= c.value && forall i :: 0 <= i < c.value ==> topic[..c.value][i] == topic[i];
  }

  /** A client that publishes under the very topic another one subscribed to is heard exactly when the topic is clean
      and a comma ends it within the publication buffer. */
  lemma {:induction false} SameTopicHeardExactly(spid: nat, ppid: nat, topic: string, line: string)
    requires spid < PIDS && ppid < PIDS
    ensures |Decimal(ppid)| <= 10
    ensures var s, p := Parse(SubscribeText(spid, topic)), Parse(SendText(ppid, topic, line));
            (s.Subscribe? && p.Publish? && s.topic == p.topic) <==> Clean(topic) && Carried(ppid, topic)
  {
    SubscribeParsed(spid, topic);
    SendTopic(ppid, topic, line);
    var kept := Kept(SUBSCRIBE, spid, topic);
    if Clean(topic) {
      PublishedClean(topic);
      SubscribedClean(topic, kept);
    } else if ScanWord(kept) == Some(Published(topic)) {
      WordIsPublished(topic, kept);
    }
  }

  // ----- scanning in general -----

  ghost predicate Blank(s: string) {
    forall i :: 0 <= i < |s| ==> IsSpace(s[i])
  }

  lemma {:induction false} SpacesRun(blanks: string, rest: string)
    requires Blank(blanks) && (rest != "" ==> !IsSpace(rest[0]))
    ensures SpaceRun(blanks + rest) == |blanks|
  {
    if blanks == "" {
      assert blanks + rest == rest;
    } else {
      assert (blanks + rest)[1..] == blanks[1..] + rest;
      SpacesRun(blanks[1..], rest);
    }
  }

  lemma {:induction false} UnsignedScanned(blanks: string, n: nat, rest: string)
    requires Blank(blanks) && (rest != "" ==> !IsDigit(rest[0]))
    ensures ScanInt(blanks + (Decimal(n) + rest)) == Some((n as int, |blanks| + |Decimal(n)|))
  {
    var d := Decimal(n);
    var t := d + rest;
    assert t[0] == d[0];
    SpacesRun(blanks, t);
    assert (blanks + t)[|blanks|..] == t && t[..|d|] == d;
    DigitsRun(d, rest);
    DecimalRoundTrip(n);
  }

  /** A number is scanned behind any white space and with its sign; what follows it stays. */
  lemma {:induction false} SignedScanned(blanks: string, sign: char, n: nat, rest: string)
    requires Blank(blanks) && (sign == '+' || sign == '-') && (rest != "" ==> !IsDigit(rest[0]))
    ensures var v: int := if sign == '-' then -(n as int) else n;
            ScanInt(blanks + ([sign] + (Decimal(n) + rest))) == Some((v, |blanks| + 1 + |Decimal(n)|))
  {
    var d := Decimal(n);
    var t := [sign] + (d + rest);
    SpacesRun(blanks, t);
    assert (blanks + t)[|blanks|] == sign && (blanks + t)[|blanks| + 1..] == d + rest;
    assert (d + rest)[..|d|] == d;
    DigitsRun(d, rest);
    DecimalRoundTrip(n);
  }

  /** A word is scanned behind any white space, up to the next one, and cut to 63 characters. */
  lemma {:induction false} WordScanned(blanks: string, word: string, rest: string)
    requires Blank(blanks) && word != "" && (forall i :: 0 <= i < |word| ==> !IsSpace(word[i]))
    requires rest != "" ==> IsSpace(rest[0])
    ensures ScanWord(blanks + (word + rest)) == Some(Cut(word))
  {
    var t := word + rest;
    assert t[0] == word[0];
    SpacesRun(blanks, t);
    assert (blanks + t)[|blanks|..] == t;
    WordsRun(word, rest, MAX_TOPIC);
    assert t[..|Cut(word)|] == Cut(word);
  }

  lemma {:induction false} WordsRun(word: string, rest: string, max: nat)
    requires (forall i :: 0 <= i < |word| ==> !IsSpace(word[i])) && (rest != "" ==> IsSpace(rest[0]))
    ensures WordRun(word + rest, max) == Least(|word|, max)
  {
    if word == "" {
      assert word + rest == rest;
    } else if max > 0 {
      assert (word + rest)[1..] == word[1..] + rest;
      WordsRun(word[1..], rest, max - 1);
    }
  }

  lemma {:induction false} NothingScanned(blanks: string, rest: string)
    requires Blank(blanks)
    ensures ScanWord(blanks) == None
    ensures rest != "" && !IsSpace(rest[0]) && !IsDigit(rest[0]) && rest[0] != '-' && rest[0] != '+' ==>
              ScanInt(blanks + rest) == None && Atoi(blanks + rest) == 0
  {
    assert blanks + "" == blanks;
    SpacesRun(blanks, "");
    if rest != "" && !IsSpace(rest[0]) {
      SpacesRun(blanks, rest);
      assert (blanks + rest)[|blanks|..] == rest;
    }
  }
}
