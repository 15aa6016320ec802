/** The URL splitter `http_parser_parse_url`: what it accepts, what it reports,
    and its agreement with the request line of the message parser. */
module UrlSplit {
  import opened Basics
  import opened HttpTypes
  import opened HttpAct
  import opened HttpRun
  import opened HttpSkip
  import opened HttpInvariant
  import opened HttpTarget
  import opened UrlFields
  import opened UrlHost

  // ----- what a URL means --------------------------------------------------

  /** Those of the first `i` bytes that have label `f`. */
  function Bytes(buf: seq<Byte>, labels: Labels, f: UrlField, i: nat): seq<Byte>
    requires i <= |labels| == |buf|
  {
    if i == 0 then [] else Bytes(buf, labels, f, i - 1) + if labels[i - 1] == Some(f) then [buf[i - 1]] else []
  }

  predicate Has(labels: Labels, f: UrlField) { exists k :: 0 <= k < |labels| && labels[k] == Some(f) }

  /** The component each byte of a URL belongs to: bytes of the server part are
      told apart by the host automaton. */
  function LabelAt(buf: seq<Byte>, connect: bool, k: nat): Maybe<UrlField>
    requires k < |buf|
  {
    var coarse := CoarseLabels(buf, UrlStart(connect));
    if coarse[k] == Some(Host) then
      FieldOfHost(HostFold(HostFrom(AtSeen(buf, UrlStart(connect), |buf|)), Bytes(buf, coarse, Host, k + 1)))
    else coarse[k]
  }

  function UrlLabels(buf: seq<Byte>, connect: bool): Labels {
    seq(|buf|, k requires 0 <= k < |buf| => LabelAt(buf, connect, k))
  }

  /** A string of digits as a number. */
  function Decimal(w: seq<Byte>): int
    decreases |w|
  {
    if w == [] then 0 else Decimal(w[..|w| - 1]) * 10 + w[|w| - 1] - 48
  }

  function ServerPart(buf: seq<Byte>, connect: bool): seq<Byte> {
    Bytes(buf, CoarseLabels(buf, UrlStart(connect)), Host, |buf|)
  }

  function PortPart(buf: seq<Byte>, connect: bool): seq<Byte> {
    Bytes(buf, UrlLabels(buf, connect), Port, |buf|)
  }

  /** The server part, if there is one, reads as a host. */
  predicate ServerOk(buf: seq<Byte>, connect: bool) {
    ServerPart(buf, connect) != [] ==> HostEnds(HostFold(HostFrom(AtSeen(buf, UrlStart(connect), |buf|)), ServerPart(buf, connect)))
  }

  /** The target of CONNECT is a host and a port, and nothing else. */
  predicate ConnectOk(buf: seq<Byte>) {
    forall f :: Has(UrlLabels(buf, true), f) <==> f.Host? || f.Port?
  }

  /** The URLs that both passes read to their end. */
  predicate Scans(buf: seq<Byte>, connect: bool) {
    && buf != []
    && UrlFold(UrlStart(connect), buf) != Dead
    && (Has(CoarseLabels(buf, UrlStart(connect)), Schema) ==> ServerPart(buf, connect) != [])
    && ServerOk(buf, connect)
  }

  /** The URLs that are accepted. */
  predicate Accepts(buf: seq<Byte>, connect: bool) {
    && Scans(buf, connect)
    && (connect ==> ConnectOk(buf))
    && Decimal(PortPart(buf, connect)) <= 65535
  }

  // ----- spans against labels ----------------------------------------------

  /** If the bytes labelled `f` are those from `lo` to `hi`, they are a slice. */
  lemma {:induction false} BytesSlice(buf: seq<Byte>, labels: Labels, f: UrlField, lo: nat, hi: nat, i: nat)
    requires i <= |labels| == |buf| && lo <= hi <= |buf|
    requires forall k :: 0 <= k < |labels| ==> (labels[k] == Some(f) <==> lo <= k < hi)
    ensures Bytes(buf, labels, f, i) == if i <= lo then [] else if i <= hi then buf[lo..i] else buf[lo..hi]
  {
    if i > 0 {
      BytesSlice(buf, labels, f, lo, hi, i - 1);
    }
  }

  lemma SpanRange(labels: Labels, fields: map<UrlField, Span>, f: UrlField)
    requires Split(labels, 0, fields, |labels|)
    ensures forall k :: 0 <= k < |labels| ==> (labels[k] == Some(f) <==> Covers(fields, f, k))
  {
    hide Split;
    forall k | 0 <= k < |labels|
      ensures labels[k] == Some(f) <==> Covers(fields, f, k)
    {
      SplitAt(labels, 0, fields, |labels|, f, k);
    }
  }

  lemma BytesOf(buf: seq<Byte>, labels: Labels, fields: map<UrlField, Span>, f: UrlField)
    requires |labels| == |buf| && Split(labels, 0, fields, |buf|) && f in fields
    ensures Has(labels, f) && fields[f].len > 0 && fields[f].off + fields[f].len <= |buf|
    ensures Bytes(buf, labels, f, |buf|) == buf[fields[f].off..fields[f].off + fields[f].len]
  {
    hide Split, Bytes, Has;
    SpanRange(labels, fields, f);
    SplitBounds(labels, 0, fields, |buf|, f);
    HasLabel(labels, f, fields[f].off);
    BytesSlice(buf, labels, f, fields[f].off, fields[f].off + fields[f].len, |buf|);
  }

  lemma NoBytesOf(buf: seq<Byte>, labels: Labels, fields: map<UrlField, Span>, f: UrlField)
    requires |labels| == |buf| && Split(labels, 0, fields, |buf|) && f !in fields
    ensures !Has(labels, f) && Bytes(buf, labels, f, |buf|) == []
  {
    hide Split, Bytes;
    SpanRange(labels, fields, f);
    BytesSlice(buf, labels, f, 0, 0, |buf|);
  }

  /** A component is present exactly if it has bytes, and these are its span. */
  lemma SpanBytes(buf: seq<Byte>, labels: Labels, fields: map<UrlField, Span>, f: UrlField)
    requires |labels| == |buf| && Split(labels, 0, fields, |buf|)
    ensures f in fields <==> Has(labels, f)
    ensures f in fields <==> Bytes(buf, labels, f, |buf|) != []
    ensures f in fields ==>
      && fields[f].off + fields[f].len <= |buf|
      && Bytes(buf, labels, f, |buf|) == buf[fields[f].off..fields[f].off + fields[f].len]
  {
    hide Split, Bytes, Has;
    if f in fields {
      BytesOf(buf, labels, fields, f);
    } else {
      NoBytesOf(buf, labels, fields, f);
    }
  }

  lemma SplitBounds(labels: Labels, base: nat, fields: map<UrlField, Span>, i: nat, f: UrlField)
    requires Split(labels, base, fields, i) && f in fields
    ensures fields[f].len > 0 && base <= fields[f].off && fields[f].off + fields[f].len <= base + i
  {
  }

  lemma HasLabel(labels: Labels, f: UrlField, k: nat)
    requires k < |labels| && labels[k] == Some(f)
    ensures Has(labels, f)
  {
  }

  /** Only the server's components come from the second pass, only the others
      from the first. */
  lemma Sides(buf: seq<Byte>, from: State, u: seq<Byte>, s: HostState)
    ensures forall k :: 0 <= k < |buf| ==> CoarseLabels(buf, from)[k] != Some(Port) && CoarseLabels(buf, from)[k] != Some(Userinfo)
    ensures forall k :: 0 <= k < |u| ==>
      HostLabels(s, u)[k].None? || HostLabels(s, u)[k].value in {Host, Port, Userinfo}
  {
  }

  lemma Keys(labels: Labels, base: nat, fields: map<UrlField, Span>, f: UrlField)
    requires Split(labels, base, fields, |labels|)
    requires f in fields
    ensures exists k :: 0 <= k < |labels| && labels[k] == Some(f)
  {
    SplitAt(labels, base, fields, |labels|, f, fields[f].off);
  }

  /** The labels inside and outside the server part. */
  lemma LabelsJoin(buf: seq<Byte>, connect: bool, coarse: map<UrlField, Span>, k: nat)
    requires Split(CoarseLabels(buf, UrlStart(connect)), 0, coarse, |buf|) && Host in coarse && k < |buf|
    ensures var lo, hi := coarse[Host].off, coarse[Host].off + coarse[Host].len;
      && hi <= |buf|
      && UrlLabels(buf, connect)[k] ==
         (if lo <= k < hi then HostLabels(HostFrom(AtSeen(buf, UrlStart(connect), |buf|)), buf[lo..hi])[k - lo]
          else CoarseLabels(buf, UrlStart(connect))[k])
      && (CoarseLabels(buf, UrlStart(connect))[k] == Some(Host) <==> lo <= k < hi)
  {
    hide AtSeen, HostFold, FieldOfHost, Split, Bytes;
    SplitBounds(CoarseLabels(buf, UrlStart(connect)), 0, coarse, |buf|, Host);
    var labels := CoarseLabels(buf, UrlStart(connect));
    var lo, hi := coarse[Host].off, coarse[Host].off + coarse[Host].len;
    forall j | 0 <= j < |labels|
      ensures labels[j] == Some(Host) <==> lo <= j < hi
    {
      SplitAt(labels, 0, coarse, |buf|, Host, j);
    }
    if lo <= k < hi {
      BytesSlice(buf, labels, Host, lo, hi, k + 1);
      assert buf[lo..hi][..k + 1 - lo] == buf[lo..k + 1];
    }
  }

  /** The spans of both passes together are exact. */
  lemma SplitJoin(buf: seq<Byte>, connect: bool, coarse: map<UrlField, Span>, sub: map<UrlField, Span>)
    requires Split(CoarseLabels(buf, UrlStart(connect)), 0, coarse, |buf|) && Host in coarse && Host in sub
    requires coarse[Host].off + coarse[Host].len <= |buf|
    requires var s := HostFrom(AtSeen(buf, UrlStart(connect), |buf|));
      Split(HostLabels(s, buf[coarse[Host].off..coarse[Host].off + coarse[Host].len]), coarse[Host].off, sub, coarse[Host].len)
    ensures Split(UrlLabels(buf, connect), 0, coarse + sub, |buf|)
  {
    hide AtSeen, UrlFold, HostFold, FieldOfState, FieldOfHost, UrlLabels, CoarseLabels, HostLabels;
    var lo, hi := coarse[Host].off, coarse[Host].off + coarse[Host].len;
    var s := HostFrom(AtSeen(buf, UrlStart(connect), |buf|));
    var labels, rough, fine, all := UrlLabels(buf, connect), CoarseLabels(buf, UrlStart(connect)), HostLabels(s, buf[lo..hi]), coarse + sub;
    Lengths(buf, connect, s, buf[lo..hi]);
    Sides(buf, UrlStart(connect), buf[lo..hi], s);
    forall f, k | 0 <= k < |buf|
      ensures Covers(all, f, 0 + k) <==> labels[k] == Some(f)
    {
      LabelsJoin(buf, connect, coarse, k);
      assert Covers(coarse, f, 0 + k) <==> rough[k] == Some(f);
      if lo <= k < hi {
        assert Covers(sub, f, lo + (k - lo)) <==> fine[k - lo] == Some(f);
      }
      if f in sub {
        Keys(fine, lo, sub, f);
      }
    }
  }

  lemma Lengths(buf: seq<Byte>, connect: bool, s: HostState, u: seq<Byte>)
    ensures |UrlLabels(buf, connect)| == |buf| && |CoarseLabels(buf, UrlStart(connect))| == |buf| && |HostLabels(s, u)| == |u|
  {
  }

  lemma OrderJoin(labels: Labels, coarse: map<UrlField, Span>, sub: map<UrlField, Span>)
    requires Ordered(coarse) && Ordered(sub) && Host in coarse && Host in sub
    requires forall f :: f in coarse ==> f != Port && f != Userinfo
    requires Split(labels, coarse[Host].off, sub, coarse[Host].len) && |labels| == coarse[Host].len
    requires forall k :: 0 <= k < |labels| ==> labels[k].None? || labels[k].value in {Host, Port, Userinfo}
    ensures Ordered(coarse + sub)
  {
    var all := coarse + sub;
    forall f, g | f in all && g in all && FieldRank(f) < FieldRank(g)
      ensures all[f].off + all[f].len <= all[g].off
    {
      if f in sub {
        Keys(labels, coarse[Host].off, sub, f);
      }
      if g in sub {
        Keys(labels, coarse[Host].off, sub, g);
      }
    }
  }

  lemma NoServer(buf: seq<Byte>, connect: bool, coarse: map<UrlField, Span>)
    requires Split(CoarseLabels(buf, UrlStart(connect)), 0, coarse, |buf|) && Host !in coarse
    ensures UrlLabels(buf, connect) == CoarseLabels(buf, UrlStart(connect))
  {
    hide Split, AtSeen, HostFold, Bytes;
    SpanRange(CoarseLabels(buf, UrlStart(connect)), coarse, Host);
  }

  /** Bytes of the server part outside its components are delimiters too. */
  lemma DelimitersJoin(buf: seq<Byte>, connect: bool, coarse: map<UrlField, Span>)
    requires Split(CoarseLabels(buf, UrlStart(connect)), 0, coarse, |buf|) && Host in coarse
    requires coarse[Host].off + coarse[Host].len <= |buf|
    requires OnlyDelimiters(buf, CoarseLabels(buf, UrlStart(connect)), 0, |buf|)
    requires var u := buf[coarse[Host].off..coarse[Host].off + coarse[Host].len];
      OnlyDelimiters(u, HostLabels(HostFrom(AtSeen(buf, UrlStart(connect), |buf|)), u), 0, |u|)
    ensures OnlyDelimiters(buf, UrlLabels(buf, connect), 0, |buf|)
  {
    hide Split, AtSeen, UrlFold, HostFold, FieldOfState, FieldOfHost, UrlLabels, CoarseLabels, HostLabels, IsDelimiter;
    var lo, hi := coarse[Host].off, coarse[Host].off + coarse[Host].len;
    var s := HostFrom(AtSeen(buf, UrlStart(connect), |buf|));
    Lengths(buf, connect, s, buf[lo..hi]);
    forall k | 0 <= k < |buf| && UrlLabels(buf, connect)[k].None?
      ensures IsDelimiter(buf[0 + k])
    {
      LabelsJoin(buf, connect, coarse, k);
      if lo <= k < hi {
        assert IsDelimiter(buf[lo..hi][0 + (k - lo)]);
      } else {
        assert IsDelimiter(buf[0 + k]);
      }
    }
  }

  lemma {:induction false} DecimalGrows(w: seq<Byte>, i: nat)
    requires i <= |w| && forall k :: 0 <= k < |w| ==> IsNum(w[k])
    ensures 0 <= Decimal(w[..i]) <= Decimal(w)
    decreases |w|
  {
    if i == |w| {
      assert w[..i] == w;
      if w != [] {
        DecimalGrows(w[..|w| - 1], |w| - 1);
      }
    } else {
      DecimalGrows(w[..|w| - 1], i);
      assert w[..|w| - 1][..i] == w[..i];
    }
  }

  lemma SecondPassStart(u: seq<Byte>, at: bool, base: nat)
    ensures SecondPass(u, at, base, map[], None, 0)
  {
    assert u[..0] == [];
  }

  lemma HostFoldNone(s: HostState, u: seq<Byte>)
    ensures HostFold(s, u[..0]) == s
  {
  }

  lemma EndsPastHost(s: HostState)
    ensures HostEnds(s) ==> PastHost(s)
  {
  }

  lemma DecimalStart(w: seq<Byte>)
    ensures Decimal(w[..0]) == 0 && Decimal([]) == 0
  {
  }

  lemma DecimalStep(w: seq<Byte>, k: nat)
    requires k < |w| && forall j :: 0 <= j < |w| ==> IsNum(w[j])
    ensures Decimal(w[..k + 1]) == Decimal(w[..k]) * 10 + w[k] - 48
    ensures 0 <= Decimal(w[..k + 1]) <= Decimal(w)
  {
    assert w[..k + 1][..k] == w[..k];
    DecimalGrows(w, k + 1);
  }

  /** The spans cover exactly the bytes of their components, in textual order,
      with only delimiters left over; the port is a number. */
  predicate Exact(buf: seq<Byte>, connect: bool, fields: map<UrlField, Span>) {
    && Split(UrlLabels(buf, connect), 0, fields, |buf|)
    && Ordered(fields)
    && OnlyDelimiters(buf, UrlLabels(buf, connect), 0, |buf|)
    && PortDigits(buf, UrlLabels(buf, connect), |buf|)
  }

  /** What a successful call reports. */
  predicate Reports(buf: seq<Byte>, connect: bool, fields: map<UrlField, Span>, port: int) {
    && Exact(buf, connect, fields)
    && 0 <= port == Decimal(PortPart(buf, connect)) <= 65535
  }

  lemma FirstPassStart(buf: seq<Byte>, connect: bool)
    ensures UrlFold(UrlStart(connect), buf[..0]) == UrlStart(connect)
    ensures FirstPass(buf, UrlStart(connect), map[], None, false, 0)
  {
    assert buf[..0] == [];
  }

  lemma NothingScans(connect: bool)
    ensures !Scans([], connect)
  {
  }

  lemma Refused(buf: seq<Byte>, connect: bool, i: nat)
    requires i <= |buf| && UrlFold(UrlStart(connect), buf[..i]) == Dead
    ensures !Scans(buf, connect)
  {
    hide UrlFold, ServerOk;
    DeadForEver(UrlStart(connect), buf, i);
  }

  lemma FirstKeys(buf: seq<Byte>, from: State, coarse: map<UrlField, Span>)
    requires Split(CoarseLabels(buf, from), 0, coarse, |buf|)
    ensures Port !in coarse && Userinfo !in coarse
  {
    hide Split, UrlFold, FieldOfState, CoarseLabels, HostLabels;
    Sides(buf, from, [], HostStart);
    forall f | f in coarse
      ensures f != Port && f != Userinfo
    {
      assert |CoarseLabels(buf, from)| == |buf| by {
        CoarseLength(buf, from);
      }
      Keys(CoarseLabels(buf, from), 0, coarse, f);
    }
  }

  lemma CoarseLength(buf: seq<Byte>, from: State)
    ensures |CoarseLabels(buf, from)| == |buf|
  {
  }

  /** After the first pass: what is left to check. */
  lemma FirstPassDone(buf: seq<Byte>, connect: bool, coarse: map<UrlField, Span>, last: Maybe<UrlField>, found: bool)
    requires buf != [] && FirstPass(buf, UrlStart(connect), coarse, last, found, |buf|)
    ensures found == AtSeen(buf, UrlStart(connect), |buf|)
    ensures Port !in coarse && Userinfo !in coarse
    ensures Host in coarse ==> coarse[Host].off + coarse[Host].len <= |buf|
    ensures Scans(buf, connect) <==>
      && !(Schema in coarse && Host !in coarse)
      && (Host in coarse ==>
            HostEnds(HostFold(HostFrom(found), buf[coarse[Host].off..coarse[Host].off + coarse[Host].len])))
  {
    hide UrlFold, HostFold, HostEnds, Split, LastIs, Bytes, CoarseLabels, OnlyDelimiters, AtSeen, Has, FieldOfState;
    var labels := CoarseLabels(buf, UrlStart(connect));
    assert buf[..|buf|] == buf;
    CoarseLength(buf, UrlStart(connect));
    FirstKeys(buf, UrlStart(connect), coarse);
    SpanBytes(buf, labels, coarse, Schema);
    SpanBytes(buf, labels, coarse, Host);
  }

  lemma PortDigitsJoin(buf: seq<Byte>, connect: bool, coarse: map<UrlField, Span>)
    requires Split(CoarseLabels(buf, UrlStart(connect)), 0, coarse, |buf|) && Host in coarse
    requires coarse[Host].off + coarse[Host].len <= |buf|
    requires var u := buf[coarse[Host].off..coarse[Host].off + coarse[Host].len];
      PortDigits(u, HostLabels(HostFrom(AtSeen(buf, UrlStart(connect), |buf|)), u), |u|)
    ensures PortDigits(buf, UrlLabels(buf, connect), |buf|)
  {
    hide Split, AtSeen, UrlFold, HostFold, FieldOfState, FieldOfHost, UrlLabels, CoarseLabels, HostLabels, IsNum;
    var lo, hi := coarse[Host].off, coarse[Host].off + coarse[Host].len;
    var s := HostFrom(AtSeen(buf, UrlStart(connect), |buf|));
    Lengths(buf, connect, s, buf[lo..hi]);
    Sides(buf, UrlStart(connect), [], s);
    forall k | 0 <= k < |buf| && UrlLabels(buf, connect)[k] == Some(Port)
      ensures IsNum(buf[k])
    {
      LabelsJoin(buf, connect, coarse, k);
      if lo <= k < hi {
        assert IsNum(buf[lo..hi][k - lo]);
      }
    }
  }

  lemma HostDone(buf: seq<Byte>, connect: bool, coarse: map<UrlField, Span>, sub: map<UrlField, Span>, last: Maybe<UrlField>, last2: Maybe<UrlField>)
    requires FirstPass(buf, UrlStart(connect), coarse, last, AtSeen(buf, UrlStart(connect), |buf|), |buf|)
    requires Host in coarse && Host in sub && coarse[Host].off + coarse[Host].len <= |buf|
    requires SecondPass(buf[coarse[Host].off..coarse[Host].off + coarse[Host].len], AtSeen(buf, UrlStart(connect), |buf|),
                        coarse[Host].off, sub, last2, coarse[Host].len)
    ensures Exact(buf, connect, coarse + sub)
  {
    hide UrlFold, HostFold, Split, Ordered, CoarseLabels, HostLabels, UrlLabels, OnlyDelimiters, PortDigits, AtSeen, FieldOfState, FieldOfHost, HostRank, Rank;
    var u := buf[coarse[Host].off..coarse[Host].off + coarse[Host].len];
    var s := HostFrom(AtSeen(buf, UrlStart(connect), |buf|));
    Lengths(buf, connect, s, u);
    FirstKeys(buf, UrlStart(connect), coarse);
    Sides(buf, UrlStart(connect), u, s);
    SplitJoin(buf, connect, coarse, sub);
    OrderJoin(HostLabels(s, u), coarse, sub);
    DelimitersJoin(buf, connect, coarse);
    PortDigitsJoin(buf, connect, coarse);
  }

  lemma NoHostDone(buf: seq<Byte>, connect: bool, coarse: map<UrlField, Span>, last: Maybe<UrlField>, found: bool)
    requires FirstPass(buf, UrlStart(connect), coarse, last, found, |buf|) && Host !in coarse
    ensures Exact(buf, connect, coarse)
  {
    hide UrlFold, Split, Ordered, CoarseLabels, UrlLabels, AtSeen, FieldOfState, HostLabels, Rank, FieldRank, IsDelimiter;
    CoarseLength(buf, UrlStart(connect));
    NoServer(buf, connect, coarse);
    Sides(buf, UrlStart(connect), [], HostStart);
  }

  /** After both passes: what is left to check. */
  lemma PassesDone(buf: seq<Byte>, connect: bool, fields: map<UrlField, Span>)
    requires Exact(buf, connect, fields)
    ensures connect ==> (ConnectOk(buf) <==> fields.Keys == {Host, Port})
    ensures Port in fields ==>
      && fields[Port].off + fields[Port].len <= |buf|
      && PortPart(buf, connect) == buf[fields[Port].off..fields[Port].off + fields[Port].len]
      && forall k :: 0 <= k < fields[Port].len ==> IsNum(PortPart(buf, connect)[k])
    ensures Port !in fields ==> PortPart(buf, connect) == []
  {
    hide Split, Ordered, UrlLabels, Bytes, OnlyDelimiters, IsNum, Has;
    var labels := UrlLabels(buf, connect);
    Lengths(buf, connect, HostStart, []);
    forall f
      ensures f in fields <==> Has(labels, f)
    {
      SpanBytes(buf, labels, fields, f);
    }
    SpanBytes(buf, labels, fields, Port);
    if Port in fields {
      forall k | 0 <= k < fields[Port].len
        ensures IsNum(PortPart(buf, connect)[k])
      {
        SplitAt(labels, 0, fields, |buf|, Port, fields[Port].off + k);
      }
    }
  }

  /** What the report means for its reader: each component is a non-empty slice,
      no byte is in two of them, they come in textual order, and every byte that
      is in none is a delimiter. */
  lemma ReportedComponents(buf: seq<Byte>, connect: bool, fields: map<UrlField, Span>, port: int)
    requires Reports(buf, connect, fields, port)
    ensures forall f :: f in fields ==> 0 < fields[f].len && fields[f].off + fields[f].len <= |buf|
    ensures forall f, g :: f in fields && g in fields && FieldRank(f) < FieldRank(g) ==> fields[f].off + fields[f].len <= fields[g].off
    ensures forall f, g, k :: Covers(fields, f, k) && Covers(fields, g, k) ==> f == g
    ensures forall k :: 0 <= k < |buf| ==> (exists f :: Covers(fields, f, k)) || IsDelimiter(buf[k])
    ensures Port in fields ==> port == Decimal(buf[fields[Port].off..fields[Port].off + fields[Port].len])
  {
    hide UrlLabels, IsDelimiter, Decimal;
    PassesDone(buf, connect, fields);
    FieldRanks();
    var labels := UrlLabels(buf, connect);
    forall k | 0 <= k < |buf|
      ensures (exists f :: Covers(fields, f, k)) || IsDelimiter(buf[k])
    {
      if labels[k].Some? {
        SplitAt(labels, 0, fields, |buf|, labels[k].value, k);
      } else {
        assert IsDelimiter(buf[0 + k]);
      }
    }
  }

  // ----- agreement with the request line -----------------------------------

  lemma {:induction false} BytesSome(buf: seq<Byte>, labels: Labels, f: UrlField, i: nat) returns (k: nat)
    requires i <= |labels| == |buf| && Bytes(buf, labels, f, i) != []
    ensures k < i && labels[k] == Some(f)
  {
    if labels[i - 1] == Some(f) {
      k := i - 1;
    } else {
      k := BytesSome(buf, labels, f, i - 1);
    }
  }

  lemma {:induction false} RankGrows(from: State, buf: seq<Byte>, i: nat)
    requires i <= |buf| && UrlFold(from, buf) != Dead
    ensures Rank(UrlFold(from, buf[..i])) <= Rank(UrlFold(from, buf))
    decreases |buf|
  {
    hide Rank, ParseUrlChar;
    if i == |buf| {
      assert buf[..i] == buf;
    } else {
      var init, ch := buf[..|buf| - 1], buf[|buf| - 1];
      DeadStaysDead(ch);
      UrlStep(UrlFold(from, init), ch);
      RankGrows(from, init, i);
      assert init[..i] == buf[..i];
    }
  }

  predicate InSchema(s: State) {
    s == ReqSchema || s == ReqSchemaSlash || s == ReqSchemaSlashSlash || s == ReqServerStart
  }

  lemma SchemaStep(s: State, ch: Byte)
    requires InSchema(ParseUrlChar(s, ch))
    ensures InSchema(s) || s == ReqSpacesBeforeUrl
    ensures s == ReqServerStart || s == ReqSchema || s == ReqSpacesBeforeUrl || ParseUrlChar(s, ch) != ReqSchema
    ensures s == ReqSpacesBeforeUrl ==> ParseUrlChar(s, ch) == ReqSchema
    ensures s != ReqServerStart
  {
  }

  lemma {:induction false} SchemaFirst(connect: bool, buf: seq<Byte>)
    requires buf != [] && InSchema(UrlFold(UrlStart(connect), buf))
    ensures After(buf, UrlStart(connect), 0) == ReqSchema
    decreases |buf|
  {
    hide InSchema, ParseUrlChar;
    var from, init, ch := UrlStart(connect), buf[..|buf| - 1], buf[|buf| - 1];
    SchemaStep(UrlFold(from, init), ch);
    if init == [] {
      assert buf[..1] == buf;
    } else {
      NotBefore(from, init);
      SchemaFirst(connect, init);
      assert init[..1] == buf[..1];
    }
  }

  lemma NotBefore(from: State, u: seq<Byte>)
    requires u != []
    ensures UrlFold(from, u) != ReqSpacesBeforeUrl
  {
    hide ParseUrlChar;
    UrlStays(UrlFold(from, u[..|u| - 1]), u[|u| - 1]);
  }

  /** An accepted URL does not stop in or right behind its scheme. */
  lemma AcceptedEnds(buf: seq<Byte>, connect: bool)
    requires Accepts(buf, connect)
    ensures TargetEnds(UrlFold(UrlStart(connect), buf))
  {
    hide ParseUrlChar, UrlFold, ServerOk, ConnectOk, Decimal, PortPart, Bytes;
    var from, s := UrlStart(connect), UrlFold(UrlStart(connect), buf);
    UrlEnds(from, buf);
    if InSchema(s) {
      SchemaFirst(connect, buf);
      var labels := CoarseLabels(buf, from);
      HasLabel(labels, Schema, 0);
      var k := BytesSome(buf, labels, Host, |buf|);
      RankGrows(from, buf, k + 1);
      assert false;
    }
  }

  lemma UrlEnds(from: State, u: seq<Byte>)
    requires u != [] && UrlFold(from, u) != Dead
    ensures TargetEnds(UrlFold(from, u)) || InSchema(UrlFold(from, u))
  {
    hide ParseUrlChar;
    UrlStays(UrlFold(from, u[..|u| - 1]), u[|u| - 1]);
  }

  /** Any URL the splitter accepts is accepted in the request line: it is
      reported unchanged, and the space behind it leads on to the version. */
  lemma UrlAgreement(max: nat, p: Parser, log: seq<Event>, buf: seq<Byte>, rest: seq<Byte>)
    requires p.state == ReqSpacesBeforeUrl && p.nread + |buf| + 1 <= max < MOD32 - 1
    requires Accepts(buf, p.verb.CONNECT?)
    ensures Run(max, p, log, buf + ([SP] + rest)) ==
            Run(max, p.(state := ReqHttpStart, nread := p.nread + |buf| + 1), Absorb(log, Url, buf), rest)
  {
    hide Run, Absorb, UrlFold, Accepts;
    AcceptedEnds(buf, p.verb.CONNECT?);
    TargetNotEmpty(buf, p.verb.CONNECT?);
    TargetRuns(max, p, log, buf, rest);
  }

  lemma TargetNotEmpty(buf: seq<Byte>, connect: bool)
    requires Accepts(buf, connect)
    ensures buf != []
  {
  }

  class UrlParts {
    var fields: map<UrlField, Span>
    var port: int

    constructor ()
      ensures fields == map[] && port == 0
    {
      fields, port := map[], 0;
    }

    /** One more byte for component `f`. */
    method Lengthen(f: UrlField)
      requires f in fields && fields[f].len < 65535
      modifies this`fields
      ensures fields == old(fields)[f := Span(old(fields)[f].off, old(fields)[f].len + 1)]
    {
      fields := fields[f := Span(fields[f].off, U16(fields[f].len + 1))];
    }

    /** What the second pass does to the spans as it moves from `s` to `t`. */
    method Record(s: HostState, t: HostState, off: nat)
      requires off < 65536
      requires FieldOfHost(t).Some? && (FieldOfHost(t).value.Host? || !Opens(s, t)) ==>
        FieldOfHost(t).value in fields && fields[FieldOfHost(t).value].len < 65535
      modifies this`fields
      ensures fields == match FieldOfHost(t)
        case None => old(fields)
        case Some(f) =>
          old(fields)[f := if !Opens(s, t) then Span(old(fields)[f].off, old(fields)[f].len + 1)
                           else Span(off, if f.Host? then old(fields)[f].len + 1 else 1)]
    {
      match t {
        case InHost | InV6 =>
          if s != t {
            fields := fields[Host := Span(U16(off), fields[Host].len)];
          }
          Lengthen(Host);
        case ZoneStart | InZone =>
          Lengthen(Host);
        case InPort =>
          if s != t {
            fields := fields[Port := Span(U16(off), 0)];
          }
          Lengthen(Port);
        case InUserinfo =>
          if s != t {
            fields := fields[Userinfo := Span(U16(off), 0)];
          }
          Lengthen(Userinfo);
        case _ =>
      }
    }

    /** The second pass: narrow the host's span to the host itself and add those
        of the user information and the port. */
    method ParseHost(buf: seq<Byte>, at: bool) returns (failed: bool, ghost sub: map<UrlField, Span>)
      requires Host in fields && fields[Host].off + fields[Host].len <= |buf| < 65536
      requires Port !in fields && Userinfo !in fields
      modifies this`fields
      ensures var lo, n := old(fields)[Host].off, old(fields)[Host].len;
        var u := buf[lo..lo + n];
        && (failed <==> !HostEnds(HostFold(HostFrom(at), u)))
        && (!failed ==>
              && fields == old(fields) + sub
              && Host in sub
              && exists last :: SecondPass(u, at, lo, sub, last, n))
    {
      hide HostFold, ParseHostChar, HostRank, FieldRank, Pass, Opens, PastHost, OnlyDelimiters, PortDigits, HostLabels, IsHostChar, IsUserinfoChar;
      var lo, n := fields[Host].off, fields[Host].len;
      ghost var u, from := buf[lo..lo + n], HostFrom(at);
      fields := fields[Host := Span(lo, 0)];
      var s := HostFrom(at);
      var i := 0;
      sub := map[];
      ghost var last: Maybe<UrlField> := None;
      ghost var was := old(fields);
      SecondPassStart(u, at, lo);
      assert s == HostFold(from, u[..0]) by {
        HostFoldNone(from, u);
      }
      assert fields == was[Host := Span(lo, 0)] + sub;
      while i < n
        invariant 0 <= i <= n
        invariant s == HostFold(from, u[..i])
        invariant SecondPass(u, at, lo, sub, last, i)
        invariant fields == was[Host := Span(lo, 0)] + sub
      {
        var t := ParseHostChar(s, buf[lo + i]);
        HostFoldStep(from, u, i);
        if t == HostDead {
          HostDeadForEver(from, u, i + 1);
          assert u[..n] == u;
          return true, sub;
        }
        SecondPassStep(u, at, lo, sub, last, i);
        ghost var kind := FieldOfHost(t);
        if kind.Some? {
          last := kind;
          sub := Next(sub, kind.value, Opens(s, t), lo + i);
        }
        Record(s, t, lo + i);
        s := t;
        i := i + 1;
      }
      assert u[..i] == u;
      failed := !(s.InHost? || s.V6End? || s.InPort?);
      EndsPastHost(s);
      assert was[Host := Span(lo, 0)] + sub == was + sub || Host !in sub;
    }
  
    /** `http_parser_parse_url`: fails exactly on the URLs that are not accepted,
        and reports the components of the others. */
    method ParseUrl(buf: seq<Byte>, connect: bool) returns (failed: bool)
      requires |buf| < 65536
      modifies this
      ensures failed <==> !Accepts(buf, connect)
      ensures !failed ==> Reports(buf, connect, fields, port)
      ensures buf == [] ==> fields == old(fields) && port == old(port)
    {
      hide UrlFold, FirstPass, SecondPass, HostFold, HostEnds, Scans, ConnectOk, Exact, FieldOfState, ParseUrlChar, Decimal, PortPart, AtSeen;
      if |buf| == 0 {
        NothingScans(connect);
        return true;
      }
      port, fields := 0, map[];
      var s, found := UrlStart(connect), false;
      ghost var from := s;
      var last: Maybe<UrlField> := None;
      var i := 0;
      FirstPassStart(buf, connect);
      while i < |buf|
        invariant 0 <= i <= |buf|
        invariant s == UrlFold(from, buf[..i]) && port == 0
        invariant FirstPass(buf, from, fields, last, found, i)
      {
        FoldStep(from, buf, i);
        s := ParseUrlChar(s, buf[i]);
        if s == Dead {
          Refused(buf, connect, i + 1);
          return true;
        }
        FirstPassStep(buf, from, fields, last, found, i);
        if s == ReqServerWithAt {
          found := true;
        }
        match FieldOfState(s) {
          case None =>
          case Some(f) =>
            if last == Some(f) {
              Lengthen(f);
            } else {
              fields := fields[f := Span(U16(i), 1)];
              last := Some(f);
            }
        }
        i := i + 1;
      }
      ghost var coarse := fields;
      assert buf[..i] == buf;
      FirstPassDone(buf, connect, coarse, last, found);
      if Schema in fields && Host !in fields {
        return true;
      }
      if Host in fields {
        ghost var sub;
        failed, sub := ParseHost(buf, found);
        if failed {
          return;
        }
        ghost var last2 :| SecondPass(buf[coarse[Host].off..coarse[Host].off + coarse[Host].len], found, coarse[Host].off, sub, last2, coarse[Host].len);
        HostDone(buf, connect, coarse, sub, last, last2);
      } else {
        NoHostDone(buf, connect, coarse, last, found);
      }
      PassesDone(buf, connect, fields);
      ghost var spans := fields;
      if connect && fields.Keys != {Host, Port} {
        return true;
      }
      if Port in fields {
        var off, len := fields[Port].off, fields[Port].len;
        var v: int, k: nat := 0, 0;
        ghost var digits := PortPart(buf, connect);
        DecimalStart(digits);
        while k < len
          invariant 0 <= k <= len && port == 0 && fields == spans
          invariant 0 <= v == Decimal(digits[..k]) <= 0xffff
        {
          DecimalStep(digits, k);
          v := v * 10 + buf[off + k] - 48;
          if v > 0xffff {
            return true;
          }
          k := k + 1;
        }
        assert digits[..k] == digits;
        port := U16(v);
      } else {
        DecimalStart([]);
      }
      failed := false;
    }
  }
}
