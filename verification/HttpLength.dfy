/** Content-Length values and chunk sizes: the 64-bit counter holds exactly the
    number written, and which numbers are accepted. */
module HttpLength {
  import opened Basics
  import opened HttpTypes
  import opened HttpAct
  import opened HttpRun
  import opened HttpInvariant
  import opened HttpSkip
  import opened HttpSteps

  /** The number the digits `w` continue from `v`, in base `b`. */
  function Number(b: nat, v: nat, w: seq<Byte>): nat
    requires forall i :: 0 <= i < |w| ==> Unhex(w[i]) >= 0
    decreases |w|
  {
    if w == [] then v else Number(b, v, w[..|w| - 1]) * b + Unhex(w[|w| - 1])
  }

  predicate Digits(w: seq<Byte>) { forall i :: 0 <= i < |w| ==> IsNum(w[i]) }

  /** Bytes the chunk size table takes as hexadecimal digits. */
  predicate SizeBytes(w: seq<Byte>) { forall i :: 0 <= i < |w| ==> Unhex(w[i]) >= 0 }

  /** These are the hexadecimal digits and all bytes from 128 up: the table has its
      first 128 entries written out, and the others are 0. */
  lemma SizeBytesExact(w: seq<Byte>)
    ensures SizeBytes(w) <==> forall i :: 0 <= i < |w| ==> IsHex(w[i]) || w[i] >= 128
  {
    forall i | 0 <= i < |w|
      ensures Unhex(w[i]) >= 0 <==> IsHex(w[i]) || w[i] >= 128
    {
    }
  }

  /** Reading the first digit by itself. */
  lemma {:induction false} NumberCons(b: nat, v: nat, d: Byte, w: seq<Byte>)
    requires Unhex(d) >= 0 && SizeBytes(w)
    ensures SizeBytes([d] + w) && Number(b, v, [d] + w) == Number(b, v * b + Unhex(d), w)
    decreases |w|
  {
    hide Unhex;
    if w == [] {
      assert [d] + w == [d] && [d][..0] == [];
    } else {
      var init := w[..|w| - 1];
      NumberCons(b, v, d, init);
      assert ([d] + w)[..|w|] == [d] + init;
    }
  }

  lemma DigitByte(lenient: bool, v: Scan, ch: Byte)
    requires v.Scan? && v.hs.HContentLengthNum? && IsNum(ch)
    ensures ScanByte(lenient, v, ch) ==
            if v.length > (MAX64 - 10) / 10 then ScanFail(INVALID_CONTENT_LENGTH)
            else v.(length := v.length * 10 + Unhex(ch))
  {
  }

  /** A run of digits in a Content-Length value: the counter never wraps, never
      reaches the sentinel, and the run is refused exactly when the number
      before its last digit is above the conservative limit. */
  lemma {:induction false} DigitsCount(lenient: bool, v: Scan, w: seq<Byte>)
    requires v.Scan? && v.hs.HContentLengthNum? && v.length < MAX64 && Digits(w) && SizeBytes(w)
    ensures var r := ValueRun(lenient, v, w);
      && (r.Scan? <==> w == [] || Number(10, v.length, w[..|w| - 1]) <= (MAX64 - 10) / 10)
      && (r.Scan? ==> r == v.(length := Number(10, v.length, w)) && r.length < MAX64)
      && (!r.Scan? ==> r == ScanFail(INVALID_CONTENT_LENGTH))
    decreases |w|
  {
    hide ScanByte;
    if w != [] {
      var init, last := w[..|w| - 1], w[|w| - 1];
      DigitsCount(lenient, v, init);
      if ValueRun(lenient, v, init).Scan? {
        DigitByte(lenient, ValueRun(lenient, v, init), last);
      }
      if init != [] {
        LimitGrows(10, v.length, init, (MAX64 - 10) / 10);
      }
    }
  }

  /** If a number is within a limit, so is what it continues. */
  lemma LimitGrows(b: nat, v: nat, w: seq<Byte>, limit: nat)
    requires b >= 1 && w != [] && SizeBytes(w)
    ensures Number(b, v, w) <= limit ==> Number(b, v, w[..|w| - 1]) <= limit
  {
    MulGrows(Number(b, v, w[..|w| - 1]), b);
  }

  lemma MulGrows(n: nat, b: nat)
    requires b >= 1
    ensures n * b >= n
  {
    assert n * b == n * (b - 1) + n;
  }

  // ----- chunk sizes -------------------------------------------------------

  /** A further size byte. */
  lemma SizeByte(max: nat, p: Parser, log: seq<Event>, ch: Byte, rest: seq<Byte>)
    requires Inv(p) && p.state == ChunkSize && Unhex(ch) >= 0 && p.nread <= max && p.nread + 1 < MOD32
    ensures Run(max, p, log, [ch] + rest) ==
            if p.nread + 1 > max then Broken(HEADER_OVERFLOW, [ch] + rest)
            else if p.length > (MAX64 - 16) / 16 then Broken(INVALID_CONTENT_LENGTH, [ch] + rest)
            else Run(max, p.(nread := p.nread + 1, length := p.length * 16 + Unhex(ch)), log, rest)
  {
    hide Run;
    var q := CountByte(p);
    assert q.nread == p.nread + 1;
    assert OnByte(q, ch) == OnChunkSize(q, ch);
    if p.nread + 1 <= max && p.length <= (MAX64 - 16) / 16 {
      QuietByte(max, p, log, ch, rest);
    } else {
      RunCons(max, p, log, ch, rest);
    }
  }

  /** A run of size bytes: the counter holds the number written and never wraps;
      apart from the header limit, the run is refused exactly when the number
      before its last byte is above the conservative limit. */
  lemma {:induction false} SizeCounts(max: nat, p: Parser, log: seq<Event>, w: seq<Byte>, rest: seq<Byte>)
    requires Inv(p) && p.state == ChunkSize && SizeBytes(w) && p.nread <= max && p.nread + |w| < MOD32
    ensures var fits := w == [] || Number(16, p.length, w[..|w| - 1]) <= (MAX64 - 16) / 16;
      if p.nread + |w| <= max && fits
      then Number(16, p.length, w) < MAX64 &&
           Run(max, p, log, w + rest) ==
           Run(max, p.(nread := p.nread + |w|, length := Number(16, p.length, w)), log, rest)
      else Run(max, p, log, w + rest).Broken?
    decreases |w|
  {
    hide Run;
    if w == [] {
      assert w + rest == rest;
    } else {
      var init, last := w[..|w| - 1], w[|w| - 1];
      assert w + rest == init + ([last] + rest);
      SizeCounts(max, p, log, init, [last] + rest);
      if init != [] {
        LimitGrows(16, p.length, init, (MAX64 - 16) / 16);
      }
      if p.nread + |init| <= max && (init == [] || Number(16, p.length, init[..|init| - 1]) <= (MAX64 - 16) / 16) {
        var q := p.(nread := p.nread + |init|, length := Number(16, p.length, init));
        SizeByte(max, q, log, last, rest);
      }
    }
  }

  /** Any other byte in its place is refused, but for the CR, the ';' and the space
      that end a size of at least one digit. */
  lemma NoSizeByte(max: nat, p: Parser, log: seq<Event>, ch: Byte, rest: seq<Byte>)
    requires Inv(p) && (p.state == ChunkSizeStart || p.state == ChunkSize) && !SizeBytes([ch]) && p.nread + 1 <= max < MOD32 - 1
    ensures Run(max, p, log, [ch] + rest) ==
            if p.state == ChunkSize && ch == CR then Run(max, p.(nread := p.nread + 1, state := ChunkSizeAlmostDone), log, rest)
            else if p.state == ChunkSize && (ch == 59 || ch == SP) then Run(max, p.(nread := p.nread + 1, state := ChunkParameters), log, rest)
            else Broken(INVALID_CHUNK_SIZE, [ch] + rest)
  {
    hide Run;
    var q := CountByte(p);
    assert Unhex([ch][0]) == -1;
    assert OnByte(q, ch) == if p.state == ChunkSize then OnChunkSize(q, ch) else OnChunkSizeStart(q, ch);
    if OnByte(q, ch).out.Go? {
      QuietByte(max, p, log, ch, rest);
    } else {
      RunCons(max, p, log, ch, rest);
    }
  }

  /** Bytes from 128 up count as the digit 0: a size line of "1" and the byte
      0x80 is read as 16. */
  lemma HighByteIsADigit(max: nat, p: Parser, log: seq<Event>)
    requires Inv(p) && p.state == ChunkSizeStart && 2 <= max
    ensures Run(max, p, log, [49, 128]) == Running(p.(state := ChunkSize, nread := 2, length := 16), log)
  {
    hide Run;
    assert [49, 128] == [49] + [128];
    assert OnByte(CountByte(p), 49) == OnChunkSizeStart(CountByte(p), 49);
    QuietByte(max, p, log, 49, [128]);
    SizeByte(max, p.(state := ChunkSize, nread := 1, length := 1), log, 128, []);
    assert [128] + [] == [128];
    NoBytes(max, p.(state := ChunkSize, nread := 2, length := 16), log);
  }

  lemma NoBytes(max: nat, p: Parser, log: seq<Event>)
    ensures Run(max, p, log, []) == Running(p, log)
  {
  }
}
