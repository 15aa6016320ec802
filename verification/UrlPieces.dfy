/** Texts in labelled pieces, and how the two passes over a URL label them. */
module UrlPieces {
  import opened Basics
  import opened HttpTypes
  import opened HttpAct
  import opened HttpTarget
  import opened UrlFields
  import opened UrlHost
  import opened UrlSplit

  // ----- texts in labelled pieces ------------------------------------------

  datatype Piece = Piece(text: seq<Byte>, mark: Maybe<UrlField>)

  function Text(ps: seq<Piece>): seq<Byte> { if ps == [] then [] else ps[0].text + Text(ps[1..]) }

  function Same(mark: Maybe<UrlField>, n: nat): (l: Labels)
    ensures |l| == n
  {
    seq(n, i => mark)
  }

  function Marks(ps: seq<Piece>): (l: Labels)
    ensures |l| == |Text(ps)|
  {
    if ps == [] then [] else Same(ps[0].mark, |ps[0].text|) + Marks(ps[1..])
  }

  /** The text of the pieces marked `f`. */
  function Marked(ps: seq<Piece>, f: UrlField): seq<Byte> {
    if ps == [] then [] else (if ps[0].mark == Some(f) then ps[0].text else []) + Marked(ps[1..], f)
  }

  lemma {:induction false} MarksConcat(a: seq<Piece>, b: seq<Piece>)
    ensures Text(a + b) == Text(a) + Text(b) && Marks(a + b) == Marks(a) + Marks(b)
    decreases |a|
  {
    if a == [] {
      assert a + b == b;
    } else {
      assert (a + b)[1..] == a[1..] + b;
      MarksConcat(a[1..], b);
    }
  }

  /** Bytes of one label, counted from the front. */
  function Pick(w: seq<Byte>, l: Labels, f: UrlField): seq<Byte>
    requires |w| == |l|
  {
    Bytes(w, l, f, |w|)
  }

  lemma {:induction false} BytesPrefix(v: seq<Byte>, l: Labels, w: seq<Byte>, m: Labels, f: UrlField, i: nat)
    requires |v| == |l| && |w| == |m| && i <= |v|
    ensures Bytes(v + w, l + m, f, i) == Bytes(v, l, f, i)
  {
    if i > 0 {
      BytesPrefix(v, l, w, m, f, i - 1);
    }
  }

  lemma {:induction false} BytesSuffix(v: seq<Byte>, l: Labels, w: seq<Byte>, m: Labels, f: UrlField, i: nat)
    requires |v| == |l| && |w| == |m| && i <= |w|
    ensures Bytes(v + w, l + m, f, |v| + i) == Bytes(v, l, f, |v|) + Bytes(w, m, f, i)
  {
    if i == 0 {
      BytesPrefix(v, l, w, m, f, |v|);
    } else {
      BytesSuffix(v, l, w, m, f, i - 1);
    }
  }

  lemma {:induction false} BytesSame(w: seq<Byte>, mark: Maybe<UrlField>, f: UrlField, i: nat)
    requires i <= |w|
    ensures Bytes(w, Same(mark, |w|), f, i) == if mark == Some(f) then w[..i] else []
  {
    if i > 0 {
      BytesSame(w, mark, f, i - 1);
    }
  }

  lemma {:induction false} PickMarked(ps: seq<Piece>, f: UrlField)
    ensures Pick(Text(ps), Marks(ps), f) == Marked(ps, f)
    decreases |ps|
  {
    if ps != [] {
      var p, rest := ps[0], ps[1..];
      PickMarked(rest, f);
      BytesSame(p.text, p.mark, f, |p.text|);
      BytesSuffix(p.text, Same(p.mark, |p.text|), Text(rest), Marks(rest), f, |Text(rest)|);
      assert p.text[..|p.text|] == p.text;
    }
  }

  // ----- the first pass over pieces ----------------------------------------

  lemma {:induction false} FoldConcat(s: State, a: seq<Byte>, b: seq<Byte>)
    ensures UrlFold(s, a + b) == UrlFold(UrlFold(s, a), b)
    decreases |b|
  {
    hide ParseUrlChar;
    if b == [] {
      assert a + b == a;
    } else {
      assert (a + b)[..|a + b| - 1] == a + b[..|b| - 1];
      FoldConcat(s, a, b[..|b| - 1]);
    }
  }

  /** The pieces lead from `s` to `t`, and their marks are right for every byte. */
  predicate Leads(s: State, ps: seq<Piece>, t: State) {
    UrlFold(s, Text(ps)) == t && CoarseLabels(Text(ps), s) == Marks(ps)
  }

  lemma LabelsConcat(s: State, a: seq<Byte>, b: seq<Byte>)
    ensures CoarseLabels(a + b, s) == CoarseLabels(a, s) + CoarseLabels(b, UrlFold(s, a))
  {
    hide UrlFold, FieldOfState;
    var l, m := CoarseLabels(a + b, s), CoarseLabels(a, s) + CoarseLabels(b, UrlFold(s, a));
    forall k | 0 <= k < |a + b|
      ensures l[k] == m[k]
    {
      if k < |a| {
        assert (a + b)[..k + 1] == a[..k + 1];
      } else {
        assert (a + b)[..k + 1] == a + b[..k + 1 - |a|];
        FoldConcat(s, a, b[..k + 1 - |a|]);
      }
    }
  }

  lemma Join(s: State, a: seq<Piece>, t: State, b: seq<Piece>, u: State)
    requires Leads(s, a, t) && Leads(t, b, u)
    ensures Leads(s, a + b, u)
  {
    hide UrlFold, CoarseLabels;
    MarksConcat(a, b);
    FoldConcat(s, Text(a), Text(b));
    LabelsConcat(s, Text(a), Text(b));
  }

  lemma OnePiece(p: Piece)
    ensures Text([p]) == p.text && Marks([p]) == Same(p.mark, |p.text|)
  {
    assert [p][1..] == [];
  }

  /** Bytes that keep the state, after a first one that reaches it. */
  lemma RunLeads(s: State, w: seq<Byte>, t: State)
    requires w != [] && ParseUrlChar(s, w[0]) == t && forall i :: 1 <= i < |w| ==> ParseUrlChar(t, w[i]) == t
    ensures Leads(s, [Piece(w, FieldOfState(t))], t)
  {
    hide ParseUrlChar, FieldOfState, UrlFold;
    OnePiece(Piece(w, FieldOfState(t)));
    forall k | 0 <= k < |w|
      ensures CoarseLabels(w, s)[k] == FieldOfState(t)
    {
      StateStays(s, w, t, k);
    }
    StateStays(s, w, t, |w| - 1);
    assert w[..|w|] == w;
  }

  lemma {:induction false} StateStays(s: State, w: seq<Byte>, t: State, k: nat)
    requires k < |w| && ParseUrlChar(s, w[0]) == t && forall i :: 1 <= i < |w| ==> ParseUrlChar(t, w[i]) == t
    ensures UrlFold(s, w[..k + 1]) == t
    decreases k
  {
    hide ParseUrlChar;
    FoldStep(s, w, k);
    if k == 0 {
      assert w[..0] == [];
    } else {
      StateStays(s, w, t, k - 1);
    }
  }

  lemma NoneLeads(s: State)
    ensures Leads(s, [], s)
  {
  }

  // ----- the server part ---------------------------------------------------

  /** Bytes the first pass takes for a server, with no two @ in a row. */
  predicate ServerBytes(w: seq<Byte>) {
    && w != [] && w[|w| - 1] != 64
    && (forall i :: 0 <= i < |w| ==> IsUserinfoChar(w[i]) || w[i] == 91 || w[i] == 93 || w[i] == 64)
    && forall i :: 0 <= i < |w| - 1 ==> !(w[i] == 64 && w[i + 1] == 64)
  }

  lemma ServerChar(s: State, c: Byte)
    requires s == ReqServerStart || s == ReqServer || (s == ReqServerWithAt && c != 64)
    requires IsUserinfoChar(c) || c == 91 || c == 93 || c == 64
    ensures ParseUrlChar(s, c) == if c == 64 then ReqServerWithAt else ReqServer
  {
  }

  lemma {:induction false} ServerState(w: seq<Byte>, k: nat)
    requires ServerBytes(w) && k < |w|
    ensures UrlFold(ReqServerStart, w[..k + 1]) == if w[k] == 64 then ReqServerWithAt else ReqServer
    decreases k
  {
    hide ParseUrlChar, IsUserinfoChar;
    FoldStep(ReqServerStart, w, k);
    if k == 0 {
      assert w[..0] == [];
      ServerChar(ReqServerStart, w[0]);
    } else {
      ServerState(w, k - 1);
      assert !(w[k - 1] == 64 && w[k] == 64);
      ServerChar(UrlFold(ReqServerStart, w[..k]), w[k]);
    }
  }

  lemma ServerLeads(w: seq<Byte>)
    requires ServerBytes(w)
    ensures Leads(ReqServerStart, [Piece(w, Some(Host))], ReqServer)
  {
    hide ParseUrlChar, UrlFold, IsUserinfoChar;
    OnePiece(Piece(w, Some(Host)));
    forall k | 0 <= k < |w|
      ensures CoarseLabels(w, ReqServerStart)[k] == Some(Host)
    {
      ServerState(w, k);
    }
    ServerState(w, |w| - 1);
    assert w[..|w|] == w;
  }

  // ----- the second pass over pieces ---------------------------------------

  lemma {:induction false} HostConcat(s: HostState, a: seq<Byte>, b: seq<Byte>)
    ensures HostFold(s, a + b) == HostFold(HostFold(s, a), b)
    decreases |b|
  {
    hide ParseHostChar;
    if b == [] {
      assert a + b == a;
    } else {
      assert (a + b)[..|a + b| - 1] == a + b[..|b| - 1];
      HostConcat(s, a, b[..|b| - 1]);
    }
  }

  predicate HostLeads(s: HostState, ps: seq<Piece>, t: HostState) {
    HostFold(s, Text(ps)) == t && HostLabels(s, Text(ps)) == Marks(ps)
  }

  lemma HostLabelsConcat(s: HostState, a: seq<Byte>, b: seq<Byte>)
    ensures HostLabels(s, a + b) == HostLabels(s, a) + HostLabels(HostFold(s, a), b)
  {
    hide HostFold, FieldOfHost;
    var l, m := HostLabels(s, a + b), HostLabels(s, a) + HostLabels(HostFold(s, a), b);
    forall k | 0 <= k < |a + b|
      ensures l[k] == m[k]
    {
      if k < |a| {
        assert (a + b)[..k + 1] == a[..k + 1];
      } else {
        assert (a + b)[..k + 1] == a + b[..k + 1 - |a|];
        HostConcat(s, a, b[..k + 1 - |a|]);
      }
    }
  }

  lemma HostJoin(s: HostState, a: seq<Piece>, t: HostState, b: seq<Piece>, u: HostState)
    requires HostLeads(s, a, t) && HostLeads(t, b, u)
    ensures HostLeads(s, a + b, u)
  {
    hide HostFold, HostLabels;
    MarksConcat(a, b);
    HostConcat(s, Text(a), Text(b));
    HostLabelsConcat(s, Text(a), Text(b));
  }

  lemma HostRunLeads(s: HostState, w: seq<Byte>, t: HostState)
    requires w != [] && ParseHostChar(s, w[0]) == t && forall i :: 1 <= i < |w| ==> ParseHostChar(t, w[i]) == t
    ensures HostLeads(s, [Piece(w, FieldOfHost(t))], t)
  {
    hide ParseHostChar, FieldOfHost, HostFold;
    OnePiece(Piece(w, FieldOfHost(t)));
    forall k | 0 <= k < |w|
      ensures HostLabels(s, w)[k] == FieldOfHost(t)
    {
      HostStays(s, w, t, k);
    }
    HostStays(s, w, t, |w| - 1);
    assert w[..|w|] == w;
  }

  lemma HostNoneLeads(s: HostState)
    ensures HostLeads(s, [], s)
  {
  }

  lemma {:induction false} HostStays(s: HostState, w: seq<Byte>, t: HostState, k: nat)
    requires k < |w| && ParseHostChar(s, w[0]) == t && forall i :: 1 <= i < |w| ==> ParseHostChar(t, w[i]) == t
    ensures HostFold(s, w[..k + 1]) == t
    decreases k
  {
    hide ParseHostChar;
    HostFoldStep(s, w, k);
    if k == 0 {
      assert w[..0] == [];
    } else {
      HostStays(s, w, t, k - 1);
    }
  }
}
