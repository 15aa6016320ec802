/** Which field names the incremental matcher recognises. */
module HttpNames {
  import opened Basics
  import opened HttpTypes
  import opened HttpAct
  import opened HttpSkip

  // ----- field names -------------------------------------------------------

  /** A name in lower case. */
  function Lowered(w: seq<Byte>): seq<Byte> { seq(|w|, i requires 0 <= i < |w| => Token(w[i])) }

  predicate IsPrefix(t: seq<Byte>, word: seq<Byte>) {
    |t| <= |word| && forall i :: 0 <= i < |t| ==> t[i] == word[i]
  }

  /** The name is `word`, or a proper part of it from the start. */
  function Reading(t: seq<Byte>, word: seq<Byte>, part: HeaderState, all: HeaderState): HeaderState {
    if !IsPrefix(t, word) then General else if |t| == |word| then all else part
  }

  /** What a name, or the beginning of one, is known to be: a plain comparison
      with the five names of interest. */
  function Known(t: seq<Byte>): HeaderState {
    if IsPrefix(t, CONNECTION) then
      if |t| <= 1 then HC else if |t| == 2 then HCO else if |t| == 3 then HCON
      else Reading(t, CONNECTION, MatchingConnection, HConnection)
    else if IsPrefix(t, CONTENT_LENGTH) then Reading(t, CONTENT_LENGTH, MatchingContentLength, HContentLength)
    else if IsPrefix(t, PROXY_CONNECTION) then Reading(t, PROXY_CONNECTION, MatchingProxyConnection, HConnection)
    else if IsPrefix(t, TRANSFER_ENCODING) then Reading(t, TRANSFER_ENCODING, MatchingTransferEncoding, HTransferEncoding)
    else if IsPrefix(t, UPGRADE) then Reading(t, UPGRADE, MatchingUpgrade, HUpgrade)
    else General
  }

  lemma PrefixGrows(t: seq<Byte>, c: Byte, word: seq<Byte>)
    ensures IsPrefix(t + [c], word) <==> IsPrefix(t, word) && |t| < |word| && c == word[|t|]
  {
    assert forall i :: 0 <= i < |t| ==> (t + [c])[i] == t[i];
    assert (t + [c])[|t|] == c;
  }

  /** The five words part company at their first byte, or at the fourth. */
  lemma WordsDiffer(t: seq<Byte>)
    requires t != []
    ensures IsPrefix(t, CONNECTION) || IsPrefix(t, CONTENT_LENGTH) ==>
              !IsPrefix(t, PROXY_CONNECTION) && !IsPrefix(t, TRANSFER_ENCODING) && !IsPrefix(t, UPGRADE)
    ensures IsPrefix(t, PROXY_CONNECTION) ==> !IsPrefix(t, TRANSFER_ENCODING) && !IsPrefix(t, UPGRADE)
    ensures IsPrefix(t, TRANSFER_ENCODING) ==> !IsPrefix(t, UPGRADE)
    ensures |t| >= 4 && IsPrefix(t, CONNECTION) ==> !IsPrefix(t, CONTENT_LENGTH)
    ensures |t| <= 3 ==> (IsPrefix(t, CONNECTION) <==> IsPrefix(t, CONTENT_LENGTH))
  {
    assert CONNECTION[0] == CONTENT_LENGTH[0] == 99 && PROXY_CONNECTION[0] == 112 && TRANSFER_ENCODING[0] == 116 && UPGRADE[0] == 117;
    assert CONNECTION[..3] == CONTENT_LENGTH[..3];
    assert CONNECTION[3] == 110 && CONTENT_LENGTH[3] == 116;
    assert forall i :: 0 <= i < 3 ==> CONNECTION[i] == CONNECTION[..3][i] && CONTENT_LENGTH[i] == CONTENT_LENGTH[..3][i];
  }

  /** Matching one of the longer words by one more byte. */
  lemma MatchGrows(t: seq<Byte>, c: Byte, word: seq<Byte>, part: HeaderState, all: HeaderState)
    requires t != [] && IsPrefix(t, word) && |t| < |word| < 128
    ensures Match(word, Inc(|t| - 1), c, General, part, all) == Reading(t + [c], word, part, all)
  {
    PrefixGrows(t, c, word);
  }

  lemma KnownStep(t: seq<Byte>, c: Byte)
    requires t != []
    ensures FieldHs(Known(t))
    ensures FieldNext(Matching(Known(t), |t| - 1), c).hs == Known(t + [c])
    ensures !Known(t + [c]).General? ==> FieldNext(Matching(Known(t), |t| - 1), c).index == |t|
  {
    hide IsPrefix, Match;
    WordsDiffer(t);
    WordsDiffer(t + [c]);
    PrefixGrows(t, c, CONNECTION);
    PrefixGrows(t, c, CONTENT_LENGTH);
    PrefixGrows(t, c, PROXY_CONNECTION);
    PrefixGrows(t, c, TRANSFER_ENCODING);
    PrefixGrows(t, c, UPGRADE);
    PrefixLength(t);
    if IsPrefix(t, CONNECTION) && |t| < |CONNECTION| {
      MatchGrows(t, c, CONNECTION, MatchingConnection, HConnection);
    } else if IsPrefix(t, CONTENT_LENGTH) && |t| < |CONTENT_LENGTH| {
      MatchGrows(t, c, CONTENT_LENGTH, MatchingContentLength, HContentLength);
    } else if IsPrefix(t, PROXY_CONNECTION) && |t| < |PROXY_CONNECTION| {
      MatchGrows(t, c, PROXY_CONNECTION, MatchingProxyConnection, HConnection);
    } else if IsPrefix(t, TRANSFER_ENCODING) && |t| < |TRANSFER_ENCODING| {
      MatchGrows(t, c, TRANSFER_ENCODING, MatchingTransferEncoding, HTransferEncoding);
    } else if IsPrefix(t, UPGRADE) && |t| < |UPGRADE| {
      MatchGrows(t, c, UPGRADE, MatchingUpgrade, HUpgrade);
    }
  }

  lemma PrefixLength(t: seq<Byte>)
    ensures IsPrefix(t, CONNECTION) ==> |t| <= |CONNECTION|
    ensures IsPrefix(t, CONTENT_LENGTH) ==> |t| <= |CONTENT_LENGTH|
    ensures IsPrefix(t, PROXY_CONNECTION) ==> |t| <= |PROXY_CONNECTION|
    ensures IsPrefix(t, TRANSFER_ENCODING) ==> |t| <= |TRANSFER_ENCODING|
    ensures IsPrefix(t, UPGRADE) ==> |t| <= |UPGRADE|
  {
  }

  /** The matching state after the name `w`. */
  function AfterNameBytes(w: seq<Byte>): Matching
    requires w != []
  {
    NameRun(Matching(FirstHeaderState(Token(w[0])), 0), w[1..])
  }

  /** The incremental matcher agrees with the plain comparison. */
  lemma {:induction false} NameRecognised(w: seq<Byte>)
    requires w != [] && AllTokens(w)
    ensures var m := AfterNameBytes(w); m.hs == Known(Lowered(w)) && (!m.hs.General? ==> m.index == |w| - 1)
    decreases |w|
  {
    hide Known, FieldNext, Token;
    if |w| == 1 {
      assert w[1..] == [];
      FirstKnown(w);
    } else {
      var init, last := w[..|w| - 1], w[|w| - 1];
      NameRecognised(init);
      assert w[1..][..|w[1..]| - 1] == init[1..];
      assert Lowered(w) == Lowered(init) + [Token(last)];
      KnownStep(Lowered(init), Token(last));
      StillGeneral(AfterNameBytes(init), Lowered(init), Token(last));
    }
  }

  lemma FirstKnown(w: seq<Byte>)
    requires |w| == 1
    ensures FirstHeaderState(Token(w[0])) == Known(Lowered(w))
  {
    assert CONNECTION[0] == CONTENT_LENGTH[0] == 99 && PROXY_CONNECTION[0] == 112 && TRANSFER_ENCODING[0] == 116 && UPGRADE[0] == 117;
    assert Lowered(w)[0] == Token(w[0]);
  }

  /** A name that matches nothing does not care about its index. */
  lemma StillGeneral(m: Matching, t: seq<Byte>, c: Byte)
    requires t != [] && FieldHs(m.hs) && m.hs == Known(t) && (!m.hs.General? ==> m.index == |t| - 1)
    ensures m.hs.General? ==> FieldNext(m, c) == m && FieldNext(Matching(Known(t), |t| - 1), c).hs.General?
  {
  }

  /** In particular the four names that change how a message is read are
      recognised if and only if they are the name, in any case of letters. */
  lemma SpecialNames(w: seq<Byte>)
    requires w != [] && AllTokens(w)
    ensures var hs, t := AfterNameBytes(w).hs, Lowered(w);
      && (hs.HConnection? <==> t == CONNECTION || t == PROXY_CONNECTION)
      && (hs.HContentLength? <==> t == CONTENT_LENGTH)
      && (hs.HTransferEncoding? <==> t == TRANSFER_ENCODING)
      && (hs.HUpgrade? <==> t == UPGRADE)
  {
    hide AfterNameBytes, IsPrefix;
    NameRecognised(w);
    var t := Lowered(w);
    WordsDiffer(t);
    WholeWord(t, CONNECTION);
    WholeWord(t, CONTENT_LENGTH);
    WholeWord(t, PROXY_CONNECTION);
    WholeWord(t, TRANSFER_ENCODING);
    WholeWord(t, UPGRADE);
  }

  lemma WholeWord(t: seq<Byte>, word: seq<Byte>)
    ensures t == word <==> IsPrefix(t, word) && |t| == |word|
  {
  }
}
