/** Which request methods the guess-and-correct matcher recognises. */
module HttpMethods {
  import opened Basics
  import opened HttpTypes
  import opened HttpAct
  import opened HttpRun
  import opened HttpSkip
  import opened HttpSteps

  /** Where a method is told from the earlier guess: `NoOrigin` if its first
      letter already guesses it. */
  datatype Origin = NoOrigin | From(guess: Method, pos: nat)

  function OriginOf(m: Method): Origin {
    match m
    case PUT => From(POST, 1)
    case PATCH => From(POST, 1)
    case PROPFIND => From(POST, 1)
    case PURGE => From(PUT, 2)
    case CHECKOUT => From(CONNECT, 1)
    case COPY => From(CONNECT, 2)
    case MOVE => From(MKCOL, 1)
    case MERGE => From(MKCOL, 1)
    case MSEARCH => From(MKCOL, 1)
    case MKACTIVITY => From(MKCOL, 2)
    case MKCALENDAR => From(MKCOL, 3)
    case SEARCH => From(SUBSCRIBE, 1)
    case SOURCE => From(SUBSCRIBE, 1)
    case REBIND => From(REPORT, 2)
    case PROPPATCH => From(PROPFIND, 4)
    case LINK => From(LOCK, 1)
    case UNSUBSCRIBE => From(UNLOCK, 2)
    case UNBIND => From(UNLOCK, 2)
    case UNLINK => From(UNLOCK, 3)
    case _ => NoOrigin
  }

  /** A correction happens where the names part, and leads to the method meant. */
  lemma OriginFits(m: Method)
    requires OriginOf(m).From?
    ensures var o, w := OriginOf(m), MethodName(m);
      && 1 <= o.pos < |w| && o.pos < |MethodName(o.guess)|
      && w[..o.pos] == MethodName(o.guess)[..o.pos]
      && w[o.pos] != MethodName(o.guess)[o.pos]
      && NextMethod(o.guess, o.pos, w[o.pos]) == Some(m)
  {
    var o := OriginOf(m);
    assert MethodName(m)[..o.pos] == MethodName(o.guess)[..o.pos];
  }

  lemma OriginDepth(m: Method)
    requires OriginOf(m).From? && OriginOf(OriginOf(m).guess).From?
    ensures OriginOf(OriginOf(m).guess).pos < OriginOf(m).pos
    ensures OriginOf(OriginOf(OriginOf(m).guess).guess).NoOrigin?
  {
  }

  function Depth(m: Method): nat {
    var o := OriginOf(m);
    if o.NoOrigin? then 0 else if OriginOf(o.guess).NoOrigin? then 1 else 2
  }

  lemma OriginDepthDown(m: Method)
    requires OriginOf(m).From?
    ensures Depth(OriginOf(m).guess) < Depth(m)
  {
    if OriginOf(OriginOf(m).guess).From? {
      OriginDepth(m);
    }
  }

  /** The guess after `k` letters of the name of `m`. */
  function Guess(m: Method, k: nat): Method
    decreases Depth(m)
  {
    var o := OriginOf(m);
    if o.NoOrigin? || k > o.pos then m else OriginDepthDown(m); Guess(o.guess, k)
  }

  predicate Basic(m: Method) {
    m.DELETE? || m.GET? || m.HEAD? || m.POST? || m.PUT? || m.CONNECT? || m.OPTIONS? || m.TRACE? || m.COPY?
    || m.LOCK? || m.MKCOL? || m.MOVE? || m.ACL? || m.BIND? || m.LINK? || m.MERGE? || m.PATCH?
  }

  lemma BasicLetters(m: Method, k: nat)
    requires Basic(m) && k < |MethodName(m)|
    ensures var c := MethodName(m)[k]; 65 <= c <= 90 || c == 45
  {
  }

  lemma OtherLetters(m: Method, k: nat)
    requires !Basic(m) && k < |MethodName(m)|
    ensures var c := MethodName(m)[k]; 65 <= c <= 90 || c == 45
  {
  }

  /** Method names are made of capital letters and '-'. */
  lemma NameLetters(m: Method, k: nat)
    requires k < |MethodName(m)|
    ensures var c := MethodName(m)[k]; 65 <= c <= 90 || c == 45
  {
    hide MethodName, Basic;
    if Basic(m) {
      BasicLetters(m, k);
    } else {
      OtherLetters(m, k);
    }
  }

  lemma LetterMatches(p: Parser, ch: Byte)
    requires p.state == ReqMethod && p.index < |MethodName(p.verb)| && MethodName(p.verb)[p.index] == ch
    ensures OnReqMethod(p, ch) == Act(p.(index := p.index + 1), [], Go)
  {
    hide MethodName;
    NameLetters(p.verb, p.index);
  }

  lemma LetterCorrects(p: Parser, ch: Byte, m: Method)
    requires p.state == ReqMethod && p.index < |MethodName(p.verb)| && MethodName(p.verb)[p.index] != ch
    requires (65 <= ch <= 90 || ch == 45) && NextMethod(p.verb, p.index, ch) == Some(m)
    ensures OnReqMethod(p, ch) == Act(p.(verb := m, index := p.index + 1), [], Go)
  {
    hide MethodName, NextMethod;
  }

  /** The next letter keeps the guess right. */
  lemma {:induction false} GuessStep(m: Method, k: nat, p: Parser)
    requires 1 <= k < |MethodName(m)| && p.state == ReqMethod && p.verb == Guess(m, k) && p.index == k
    ensures OnReqMethod(p, MethodName(m)[k]) == Act(p.(verb := Guess(m, k + 1), index := k + 1), [], Go)
    decreases Depth(m)
  {
    hide MethodName, NextMethod, OriginOf, OnReqMethod;
    var o := OriginOf(m);
    if o.From? && k <= o.pos {
      OriginFits(m);
      OriginDepthDown(m);
      if k < o.pos {
        assert MethodName(m)[k] == MethodName(m)[..o.pos][k] == MethodName(o.guess)[..o.pos][k];
        GuessStep(o.guess, k, p);
      } else {
        if OriginOf(o.guess).From? {
          OriginDepth(m);
        }
        assert Guess(m, k) == o.guess;
        NameLetters(m, k);
        LetterCorrects(p, MethodName(m)[k], m);
      }
    } else {
      LetterMatches(p, MethodName(m)[k]);
    }
  }

  /** The first letter. */
  lemma {:induction false} FirstGuess(m: Method)
    ensures FirstMethod(MethodName(m)[0]) == Some(Guess(m, 1))
    decreases Depth(m)
  {
    if OriginOf(m).From? {
      OriginFits(m);
      OriginDepthDown(m);
      FirstGuess(OriginOf(m).guess);
      assert MethodName(m)[0] == MethodName(m)[..OriginOf(m).pos][0];
    }
  }

  /** The parser when a request with method `m` has been begun with `k` letters. */
  function Begun(p: Parser, m: Method, k: nat): Parser {
    p.(flags := NO_FLAGS, length := MAX64, verb := Guess(m, k), index := k, state := ReqMethod, nread := p.nread + k)
  }

  lemma MethodStarts(max: nat, p: Parser, log: seq<Event>, m: Method, rest: seq<Byte>)
    requires p.state == StartReq && p.nread + 1 <= max < MOD32 - 1
    ensures Run(max, p, log, [MethodName(m)[0]] + rest) == Run(max, Begun(p, m, 1), Push(log, MessageBegin), rest)
  {
    hide Run, Push, MethodName, Guess;
    var ch := MethodName(m)[0];
    assert [Notify(MessageBegin)] + [] == [Notify(MessageBegin)];
    FirstGuess(m);
    var q := CountByte(p);
    assert OnByte(q, ch) == OnStartReq(q, ch);
    assert OnByte(q, ch).ops == [Notify(MessageBegin)];
    NotifyByte(max, p, log, ch, rest, MessageBegin);
  }

  lemma {:induction false} MethodLetters(max: nat, p: Parser, log: seq<Event>, m: Method, k: nat, rest: seq<Byte>)
    requires p.state == StartReq && 1 <= k <= |MethodName(m)| && p.nread + |MethodName(m)| <= max < MOD32 - 1
    ensures Run(max, Begun(p, m, k), log, MethodName(m)[k..] + rest) ==
            Run(max, Begun(p, m, |MethodName(m)|), log, rest)
    decreases |MethodName(m)| - k
  {
    hide Run, MethodName, Guess;
    var w := MethodName(m);
    if k == |w| {
      assert w[k..] + rest == rest;
    } else {
      assert w[k..] + rest == [w[k]] + (w[k + 1..] + rest);
      var q := Begun(p, m, k);
      GuessStep(m, k, CountByte(q));
      assert OnByte(CountByte(q), w[k]) == OnReqMethod(CountByte(q), w[k]);
      QuietByte(max, q, log, w[k], w[k + 1..] + rest);
      MethodLetters(max, p, log, m, k + 1, rest);
    }
  }

  lemma GuessEnds(m: Method)
    ensures Guess(m, |MethodName(m)|) == m
  {
    if OriginOf(m).From? {
      OriginFits(m);
    }
  }

  /** The parser after the method and the space behind it. */
  function AfterMethod(p: Parser, m: Method): Parser {
    var n := |MethodName(m)| + 1;
    p.(flags := NO_FLAGS, length := MAX64, verb := m, index := n, state := ReqSpacesBeforeUrl, nread := p.nread + n)
  }

  /** Every method is recognised. */
  lemma MethodRuns(max: nat, p: Parser, log: seq<Event>, m: Method, rest: seq<Byte>)
    requires p.state == StartReq && p.nread + |MethodName(m)| + 1 <= max < MOD32 - 1
    ensures Run(max, p, log, MethodName(m) + ([SP] + rest)) == Run(max, AfterMethod(p, m), Push(log, MessageBegin), rest)
  {
    hide Run, Push, MethodName, Guess;
    var w := MethodName(m);
    assert w + ([SP] + rest) == [w[0]] + (w[1..] + ([SP] + rest));
    MethodStarts(max, p, log, m, w[1..] + ([SP] + rest));
    var begun := Push(log, MessageBegin);
    MethodLetters(max, p, begun, m, 1, [SP] + rest);
    GuessEnds(m);
    var q := Begun(p, m, |w|);
    assert OnByte(CountByte(q), SP) == OnReqMethod(CountByte(q), SP);
    QuietByte(max, q, begun, SP, rest);
  }

  // ----- nothing else is recognised ----------------------------------------

  /** The bytes `w` are the beginning of the guessed method's name. */
  predicate ReadSoFar(p: Parser, w: seq<Byte>) {
    p.state == ReqMethod && p.index == |w| && |w| <= |MethodName(p.verb)| && MethodName(p.verb)[..|w|] == w
  }

  predicate LetterFits(n: Maybe<Method>, pos: nat, ch: Byte) {
    n.Some? ==> pos < |MethodName(n.value)| && MethodName(n.value)[pos] == ch
  }

  lemma NextLetterMany(m: Method, pos: nat, ch: Byte)
    requires m.POST? || m.MKCOL? || m.UNLOCK?
    ensures LetterFits(NextMethod(m, pos, ch), pos, ch)
  {
  }

  lemma NextLetterFew(m: Method, pos: nat, ch: Byte)
    requires !(m.POST? || m.MKCOL? || m.UNLOCK?)
    ensures LetterFits(NextMethod(m, pos, ch), pos, ch)
  {
  }

  lemma NextOrigin(m: Method, pos: nat, ch: Byte)
    ensures var n := NextMethod(m, pos, ch); n.Some? ==> OriginOf(n.value) == From(m, pos)
  {
  }

  /** Corrections are made only at origins. */
  lemma NextIsOrigin(m: Method, pos: nat, ch: Byte)
    ensures var n := NextMethod(m, pos, ch);
      n.Some? ==> OriginOf(n.value) == From(m, pos) && pos < |MethodName(n.value)| && MethodName(n.value)[pos] == ch
  {
    hide MethodName, NextMethod, OriginOf;
    NextOrigin(m, pos, ch);
    if m.POST? || m.MKCOL? || m.UNLOCK? {
      NextLetterMany(m, pos, ch);
    } else {
      NextLetterFew(m, pos, ch);
    }
  }

  lemma SoundStep(p: Parser, w: seq<Byte>, ch: Byte)
    requires ReadSoFar(p, w)
    ensures var a := OnReqMethod(p, ch);
      a.out.Go? ==> ReadSoFar(a.p, w + [ch]) || (ch == SP && a.p.state == ReqSpacesBeforeUrl && w == MethodName(a.p.verb))
  {
    hide MethodName, NextMethod, OriginOf;
    var a := OnReqMethod(p, ch);
    NextIsOrigin(p.verb, p.index, ch);
    if p.index < |MethodName(p.verb)| {
      NameLetters(p.verb, p.index);
    }
    if a.out.Go? && a.p.state == ReqMethod {
      if a.p.verb != p.verb {
        OriginFits(a.p.verb);
      }
      var name := MethodName(a.p.verb);
      assert |w| < |name| && name[|w|] == ch && name[..|w|] == w;
      assert name[..|w| + 1] == name[..|w|] + [name[|w|]];
    } else if a.out.Go? {
      assert MethodName(p.verb)[..|w|] == MethodName(p.verb);
    }
  }

  lemma SoundFirst(p: Parser, ch: Byte)
    ensures var a := OnStartReq(p, ch); a.out.Go? && a.p.state == ReqMethod && p.state == StartReq ==> ReadSoFar(a.p, [ch])
  {
  }

  /** What is recognised as a method is that method's name, letter by letter. */
  lemma {:induction false} MethodSound(max: nat, p: Parser, log: seq<Event>, w: seq<Byte>, v: seq<Byte>)
    requires ReadSoFar(p, v) && forall i :: 0 <= i < |w| ==> w[i] != SP
    ensures var r := Run(max, p, log, w + [SP]);
      r.Running? && r.p.state == ReqSpacesBeforeUrl ==> v + w == MethodName(r.p.verb)
    decreases |w|
  {
    hide MethodName, OnReqMethod, Run, PushAll, DoOps;
    var ch := (w + [SP])[0];
    var rest := (w + [SP])[1..];
    assert w + [SP] == [ch] + rest;
    RunCons(max, p, log, ch, rest);
    SoundStep(CountByte(p), v, ch);
    assert OnByte(CountByte(p), ch) == OnReqMethod(CountByte(p), ch);
    var r := Step(max, p, log, ch, rest);
    if r.Running? {
      if w == [] {
        NoBytesLeft(max, r.p, r.log);
        assert v + w == v;
      } else {
        assert rest == w[1..] + [SP] && v + w == (v + [ch]) + w[1..];
        MethodSound(max, r.p, r.log, w[1..], v + [ch]);
      }
    }
  }

  lemma NoBytesLeft(max: nat, p: Parser, log: seq<Event>)
    ensures Run(max, p, log, []) == Running(p, log)
  {
  }

  /** From a start state, bytes before a space are taken as a method if and only
      if they are the name of one, and then it is that method. */
  lemma MethodRecognised(max: nat, p: Parser, log: seq<Event>, w: seq<Byte>)
    requires p.state == StartReq && w != [] && w[0] != CR && w[0] != LF && (forall i :: 0 <= i < |w| ==> w[i] != SP)
    requires p.nread + |w| + 1 <= max < MOD32 - 1
    ensures var r := Run(max, p, log, w + [SP]);
      var taken := r.Running? && r.p.state == ReqSpacesBeforeUrl;
      (taken <==> exists m :: w == MethodName(m)) && (taken ==> w == MethodName(r.p.verb))
  {
    hide Run, MethodName, OnStartReq, PushAll, DoOps;
    var ch, rest := w[0], w[1..] + [SP];
    assert w + [SP] == [ch] + rest;
    RunCons(max, p, log, ch, rest);
    var q := CountByte(p);
    assert OnByte(q, ch) == OnStartReq(q, ch);
    StartsMethod(q, ch);
    SoundFirst(q, ch);
    var r := Step(max, p, log, ch, rest);
    if r.Running? {
      MethodSound(max, r.p, r.log, w[1..], [ch]);
      assert [ch] + w[1..] == w;
    }
    if m :| w == MethodName(m) {
      MethodRuns(max, p, log, m, []);
      assert MethodName(m) + ([SP] + []) == w + [SP];
      NoBytesLeft(max, AfterMethod(p, m), Push(log, MessageBegin));
    }
  }

  lemma StartsMethod(p: Parser, ch: Byte)
    requires p.state == StartReq && ch != CR && ch != LF
    ensures var a := OnStartReq(p, ch); a.out.Fail? || (a.out.Go? && a.p.state == ReqMethod)
  {
  }
}
