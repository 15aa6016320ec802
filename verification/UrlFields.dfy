/** The components of a URL as spans of bytes, and the first of the two passes
    that `http_parser_parse_url` makes. */
module UrlFields {
  import opened Basics
  import opened HttpTypes
  import opened HttpAct
  import opened HttpInvariant
  import opened HttpTarget

  datatype UrlField = Schema | Host | Port | Path | Query | Fragment | Userinfo

  datatype Span = Span(off: nat, len: nat)

  /** 16-bit arithmetic of offsets and lengths. */
  function U16(n: nat): nat { n % 65536 }

  // ----- first pass: which component a byte belongs to ----------------------

  /** The component a URL state stands for, if it is not a delimiter's. */
  function FieldOfState(s: State): Maybe<UrlField> {
    if s == ReqSchema then Some(Schema)
    else if s == ReqServer || s == ReqServerWithAt then Some(Host)
    else if s == ReqPath then Some(Path)
    else if s == ReqQuery then Some(Query)
    else if s == ReqFragment then Some(Fragment)
    else None
  }

  /** The state that byte `k` leads to. */
  function After(buf: seq<Byte>, from: State, k: nat): State
    requires k < |buf|
  {
    UrlFold(from, buf[..k + 1])
  }

  /** The order of the states of an accepted URL; the components' are even. */
  function Rank(s: State): nat {
    if s == ReqSchema then 2
    else if s == ReqSchemaSlash || s == ReqSchemaSlashSlash || s == ReqServerStart then 3
    else if s == ReqServer || s == ReqServerWithAt then 4
    else if s == ReqPath then 6
    else if s == ReqQueryStart then 7
    else if s == ReqQuery then 8
    else if s == ReqFragmentStart then 9
    else if s == ReqFragment then 10
    else 0
  }

  function FieldRank(f: UrlField): nat {
    match f
    case Schema => 2
    case Userinfo => 3
    case Host => 4
    case Port => 5
    case Path => 6
    case Query => 8
    case Fragment => 10
  }

  predicate IsDelimiter(c: Byte) {
    c == 58 /* : */ || c == 47 /* / */ || c == 63 /* ? */ || c == 35 /* # */ || c == 64 /* @ */ || c == 91 /* [ */ || c == 93 /* ] */
  }

  /** A URL is read from left to right through its components, and only
      delimiters are left between them. */
  lemma UrlStep(s: State, ch: Byte)
    requires ParseUrlChar(s, ch) != Dead
    ensures var t := ParseUrlChar(s, ch);
      && Rank(s) <= Rank(t)
      && (FieldOfState(t).None? ==> IsDelimiter(ch))
      && (FieldOfState(t).Some? ==> Rank(t) == FieldRank(FieldOfState(t).value))
      && (FieldOfState(t).Some? && Rank(s) == Rank(t) ==> FieldOfState(s) == FieldOfState(t))
  {
    UrlStays(s, ch);
  }

  lemma FoldStep(from: State, buf: seq<Byte>, i: nat)
    requires i < |buf|
    ensures UrlFold(from, buf[..i + 1]) == ParseUrlChar(UrlFold(from, buf[..i]), buf[i])
  {
    assert buf[..i + 1][..i] == buf[..i];
  }

  lemma {:induction false} DeadForEver(from: State, buf: seq<Byte>, i: nat)
    requires i <= |buf| && UrlFold(from, buf[..i]) == Dead
    ensures UrlFold(from, buf) == Dead
    decreases |buf| - i
  {
    if i < |buf| {
      FoldStep(from, buf, i);
      DeadStaysDead(buf[i]);
      DeadForEver(from, buf, i + 1);
    } else {
      assert buf[..i] == buf;
    }
  }

  // ----- spans -------------------------------------------------------------

  predicate Covers(fields: map<UrlField, Span>, f: UrlField, k: nat) {
    f in fields && fields[f].off <= k < fields[f].off + fields[f].len
  }

  /** The components that the bytes of a stretch belong to, one by one. */
  type Labels = seq<Maybe<UrlField>>

  /** Among the first `i` bytes of the stretch at `base`, the spans cover exactly
      the bytes with their label; each span has bytes, and lies in the stretch. */
  predicate Split(labels: Labels, base: nat, fields: map<UrlField, Span>, i: nat) {
    && i <= |labels|
    && (forall f, k :: 0 <= k < i ==> (Covers(fields, f, base + k) <==> labels[k] == Some(f)))
    && (forall f :: f in fields ==>
          fields[f].len > 0 && base <= fields[f].off && fields[f].off + fields[f].len <= base + i)
  }

  lemma SplitAt(labels: Labels, base: nat, fields: map<UrlField, Span>, i: nat, f: UrlField, k: nat)
    requires Split(labels, base, fields, i) && base <= k < base + i
    ensures Covers(fields, f, k) <==> labels[k - base] == Some(f)
  {
    assert k == base + (k - base);
  }

  lemma SplitSkip(labels: Labels, base: nat, fields: map<UrlField, Span>, i: nat)
    requires i < |labels| && Split(labels, base, fields, i) && labels[i].None?
    ensures Split(labels, base, fields, i + 1)
  {
  }

  lemma SplitExtend(labels: Labels, base: nat, fields: map<UrlField, Span>, f: UrlField, i: nat)
    requires i < |labels| && Split(labels, base, fields, i) && labels[i] == Some(f)
    requires f in fields && fields[f].off + fields[f].len == base + i
    ensures Split(labels, base, fields[f := Span(fields[f].off, fields[f].len + 1)], i + 1)
  {
    var next := fields[f := Span(fields[f].off, fields[f].len + 1)];
    forall g, k | 0 <= k < i + 1
      ensures Covers(next, g, base + k) <==> labels[k] == Some(g)
    {
      if k < i {
        assert Covers(fields, g, base + k) <==> labels[k] == Some(g);
      }
    }
  }

  lemma SplitOpen(labels: Labels, base: nat, fields: map<UrlField, Span>, f: UrlField, i: nat)
    requires i < |labels| && Split(labels, base, fields, i) && labels[i] == Some(f) && f !in fields
    ensures Split(labels, base, fields[f := Span(base + i, 1)], i + 1)
  {
    var next := fields[f := Span(base + i, 1)];
    forall g, k | 0 <= k < i + 1
      ensures Covers(next, g, base + k) <==> labels[k] == Some(g)
    {
      if k < i {
        assert Covers(fields, g, base + k) <==> labels[k] == Some(g);
      }
    }
  }

  /** The spans follow each other in the order of the components. */
  predicate Ordered(fields: map<UrlField, Span>) {
    forall f, g :: f in fields && g in fields && FieldRank(f) < FieldRank(g) ==> fields[f].off + fields[f].len <= fields[g].off
  }

  /** `last` is the component written last, the bytes before offset `at` are
      used, and `open` says that the last one ends there. */
  predicate LastIs(fields: map<UrlField, Span>, last: Maybe<UrlField>, open: bool, at: nat) {
    && Ordered(fields)
    && (last.Some? ==> last.value in fields)
    && (forall f :: f in fields ==>
          last.Some? && FieldRank(f) <= FieldRank(last.value) && fields[f].off + fields[f].len <= at)
    && (open ==> last.Some? && fields[last.value].off + fields[last.value].len == at)
  }

  lemma LastExtend(fields: map<UrlField, Span>, f: UrlField, at: nat)
    requires LastIs(fields, Some(f), true, at)
    ensures LastIs(fields[f := Span(fields[f].off, fields[f].len + 1)], Some(f), true, at + 1)
  {
    hide FieldRank;
    FieldRanks();
  }

  lemma LastOpen(fields: map<UrlField, Span>, last: Maybe<UrlField>, open: bool, f: UrlField, at: nat)
    requires LastIs(fields, last, open, at) && (last.Some? ==> FieldRank(last.value) < FieldRank(f))
    ensures f !in fields && LastIs(fields[f := Span(at, 1)], Some(f), true, at + 1)
  {
    hide FieldRank;
  }

  lemma FieldRanks()
    ensures forall f, g :: FieldRank(f) == FieldRank(g) ==> f == g
  {
  }

  lemma LastFacts(fields: map<UrlField, Span>, f: UrlField, at: nat)
    requires LastIs(fields, Some(f), true, at)
    ensures f in fields && fields[f].off + fields[f].len == at
  {
  }

  lemma LastClose(fields: map<UrlField, Span>, last: Maybe<UrlField>, open: bool, at: nat)
    requires LastIs(fields, last, open, at)
    ensures LastIs(fields, last, false, at + 1)
  {
  }

  /** How far a pass over a stretch has come: `here` is the component of the byte
      just read, `last` the component written last, `rank` the order reached. */
  predicate Pass(labels: Labels, base: nat, fields: map<UrlField, Span>, here: Maybe<UrlField>, last: Maybe<UrlField>, rank: nat, i: nat) {
    && Split(labels, base, fields, i)
    && LastIs(fields, last, here.Some?, base + i)
    && (here.Some? ==> last == here)
    && (last.Some? ==> FieldRank(last.value) <= rank)
  }

  /** One more byte, with a label no earlier in order: what a pass does to the
      spans keeps them exact and in order. */
  lemma PassStep(labels: Labels, base: nat, fields: map<UrlField, Span>, here: Maybe<UrlField>, last: Maybe<UrlField>, rank: nat, rank': nat, i: nat)
    requires Pass(labels, base, fields, here, last, rank, i) && i < |labels| && rank <= rank'
    requires labels[i].Some? ==> rank' == FieldRank(labels[i].value)
    requires labels[i].Some? && rank == rank' ==> here == labels[i]
    ensures match labels[i]
      case None => Pass(labels, base, fields, None, last, rank', i + 1)
      case Some(f) =>
        && (last == Some(f) <==> here == Some(f))
        && if here == Some(f) then
             f in fields && fields[f].off + fields[f].len == base + i
             && Pass(labels, base, fields[f := Span(fields[f].off, fields[f].len + 1)], Some(f), Some(f), rank', i + 1)
           else f !in fields && Pass(labels, base, fields[f := Span(base + i, 1)], Some(f), Some(f), rank', i + 1)
  {
    hide FieldRank, Split, LastIs;
    FieldRanks();
    match labels[i] {
      case None =>
        SplitSkip(labels, base, fields, i);
        LastClose(fields, last, here.Some?, base + i);
      case Some(f) =>
        if here == Some(f) {
          LastFacts(fields, f, base + i);
          SplitExtend(labels, base, fields, f, i);
          LastExtend(fields, f, base + i);
        } else {
          LastOpen(fields, last, here.Some?, f, base + i);
          SplitOpen(labels, base, fields, f, i);
        }
    }
  }

  // ----- the first pass ----------------------------------------------------

  function CoarseLabels(buf: seq<Byte>, from: State): Labels {
    seq(|buf|, k requires 0 <= k < |buf| => FieldOfState(After(buf, from, k)))
  }

  /** Whether the bytes up to `i` have an '@' in the server part. */
  predicate AtSeen(buf: seq<Byte>, from: State, i: nat)
    requires i <= |buf|
  {
    exists k :: 0 <= k < i && After(buf, from, k) == ReqServerWithAt
  }

  lemma AtSeenStep(buf: seq<Byte>, from: State, i: nat)
    requires i < |buf|
    ensures AtSeen(buf, from, i + 1) <==> AtSeen(buf, from, i) || UrlFold(from, buf[..i + 1]) == ReqServerWithAt
  {
    assert After(buf, from, i) == UrlFold(from, buf[..i + 1]);
  }

  predicate OnlyDelimiters(buf: seq<Byte>, labels: Labels, base: nat, i: nat)
    requires i <= |labels| && base + |labels| <= |buf|
  {
    forall k :: 0 <= k < i && labels[k].None? ==> IsDelimiter(buf[base + k])
  }

  /** How far the first pass has come. */
  predicate FirstPass(buf: seq<Byte>, from: State, fields: map<UrlField, Span>, last: Maybe<UrlField>, found: bool, i: nat) {
    && i <= |buf|
    && var s, labels := UrlFold(from, buf[..i]), CoarseLabels(buf, from);
    && s != Dead
    && Pass(labels, 0, fields, FieldOfState(s), last, Rank(s), i)
    && OnlyDelimiters(buf, labels, 0, i)
    && (found <==> AtSeen(buf, from, i))
  }

  lemma FirstPassStep(buf: seq<Byte>, from: State, fields: map<UrlField, Span>, last: Maybe<UrlField>, found: bool, i: nat)
    requires i < |buf| && FirstPass(buf, from, fields, last, found, i) && UrlFold(from, buf[..i + 1]) != Dead
    ensures var t := UrlFold(from, buf[..i + 1]);
      var found' := found || t == ReqServerWithAt;
      match FieldOfState(t)
      case None => FirstPass(buf, from, fields, last, found', i + 1)
      case Some(f) =>
        if last == Some(f) then
          && f in fields && fields[f].len <= i
          && FirstPass(buf, from, fields[f := Span(fields[f].off, fields[f].len + 1)], last, found', i + 1)
        else FirstPass(buf, from, fields[f := Span(i, 1)], Some(f), found', i + 1)
  {
    hide UrlFold, Rank, FieldRank, Pass, FieldOfState, AtSeen, ParseUrlChar;
    FoldStep(from, buf, i);
    var s, t, labels := UrlFold(from, buf[..i]), UrlFold(from, buf[..i + 1]), CoarseLabels(buf, from);
    UrlStep(s, buf[i]);
    AtSeenStep(buf, from, i);
    assert labels[i] == FieldOfState(t);
    PassStep(labels, 0, fields, FieldOfState(s), last, Rank(s), Rank(t), i);
  }
}
