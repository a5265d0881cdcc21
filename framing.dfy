/**
 * The line framing applied to the bytes read from a serial device.
 *
 * The reference meaning of framing is stated on raw bytes: every CR and every
 * LF ends a piece, empty pieces are dropped, and the bytes after the last
 * terminator are the unterminated tail.  A CR LF pair ends one piece, because
 * the empty piece between its CR and its LF is dropped.
 *
 * The serial monitor instead rewrites CR LF and then lone CR to LF
 * (`ReplaceCRLF`, `ReplaceCR`) and splits on LF (`SplitOnce`).  The lemmas
 * below show that the two agree, and that framing does not depend on where the
 * input is cut into chunks.
 */
module Framing {
  import opened Bytes

  const CR: byte := 13
  const LF: byte := 10

  predicate IsTerminator(b: byte) {
    b == CR || b == LF
  }

  /** No line terminator of either kind occurs in `s`. */
  predicate Unterminated(s: seq<byte>) {
    CR !in s && LF !in s
  }

  // ---------------------------------------------------------------------------
  // The rewriting done by the serial monitor

  /** Python's `bytes.replace(b'\r\n', b'\n')`: left to right, non-overlapping. */
  function ReplaceCRLF(s: seq<byte>): (r: seq<byte>)
    ensures |r| <= |s|
    ensures LF in r <==> LF in s
    decreases |s|
  {
    if s == [] then []
    else if |s| >= 2 && s[0] == CR && s[1] == LF then [LF] + ReplaceCRLF(s[2..])
    else [s[0]] + ReplaceCRLF(s[1..])
  }

  /** Python's `bytes.replace(b'\r', b'\n')`. */
  function ReplaceCR(s: seq<byte>): (r: seq<byte>)
    ensures |r| == |s| && CR !in r
    ensures forall i :: 0 <= i < |s| && s[i] != CR ==> r[i] == s[i]
  {
    seq(|s|, i requires 0 <= i < |s| => if s[i] == CR then LF else s[i])
  }

  /** The two rewrites in the order the serial monitor applies them. */
  function Normalize(s: seq<byte>): (r: seq<byte>)
    ensures CR !in r
  {
    ReplaceCR(ReplaceCRLF(s))
  }

  /** Python's `s.split(b'\n', 1)` on a buffer that holds an LF. */
  function SplitOnce(s: seq<byte>): (r: (seq<byte>, seq<byte>))
    requires LF in s
    ensures s == r.0 + [LF] + r.1
    ensures LF !in r.0
  {
    if s[0] == LF then ([], s[1..])
    else
      var (head, rest) := SplitOnce(s[1..]);
      ([s[0]] + head, rest)
  }

  // ---------------------------------------------------------------------------
  // The reference meaning of framing

  /** The line that a terminator completes: nothing when the piece is empty. */
  function Emit(piece: seq<byte>): seq<seq<byte>> {
    if piece == [] then [] else [piece]
  }

  /**
   * Scans `s` with `cur` as the piece collected so far; gives the completed
   * non-empty lines and the piece still open at the end.
   */
  function Scan(cur: seq<byte>, s: seq<byte>): (seq<seq<byte>>, seq<byte>)
    decreases |s|
  {
    if s == [] then ([], cur)
    else if IsTerminator(s[0]) then
      var (lines, tail) := Scan([], s[1..]);
      (Emit(cur) + lines, tail)
    else Scan(cur + [s[0]], s[1..])
  }

  /** The non-empty pieces of `s` that a CR, LF or CR LF has terminated, in order. */
  function Lines(s: seq<byte>): seq<seq<byte>> {
    Scan([], s).0
  }

  /** The bytes of `s` after its last terminator. */
  function Tail(s: seq<byte>): seq<byte> {
    Scan([], s).1
  }

  /** Every line is non-empty and holds no terminator. */
  predicate WellFramed(lines: seq<seq<byte>>) {
    forall i :: 0 <= i < |lines| ==> lines[i] != [] && Unterminated(lines[i])
  }

  // ---------------------------------------------------------------------------
  // Lemmas about the reference meaning

  /** Scanning never produces an empty line or a line or tail that holds a terminator. */
  lemma {:induction false} ScanWellFramed(cur: seq<byte>, s: seq<byte>)
    requires Unterminated(cur)
    ensures WellFramed(Scan(cur, s).0) && Unterminated(Scan(cur, s).1)
    decreases |s|
  {
    if s == [] {
    } else if IsTerminator(s[0]) {
      ScanWellFramed([], s[1..]);
    } else {
      ScanWellFramed(cur + [s[0]], s[1..]);
    }
  }

  lemma LinesWellFramed(s: seq<byte>)
    ensures WellFramed(Lines(s)) && Unterminated(Tail(s))
  {
    ScanWellFramed([], s);
  }

  /** Input without a terminator only extends the open piece. */
  lemma {:induction false} ScanUnterminated(cur: seq<byte>, s: seq<byte>)
    requires Unterminated(s)
    ensures Scan(cur, s) == ([], cur + s)
    decreases |s|
  {
    if s == [] {
      assert cur + s == cur;
    } else {
      assert s[0] in s && forall x :: x in s[1..] ==> x in s;
      ScanUnterminated(cur + [s[0]], s[1..]);
      assert cur + [s[0]] + s[1..] == cur + s;
    }
  }

  /** Scanning a concatenation scans the second part from where the first part left off. */
  lemma {:induction false} ScanAppend(cur: seq<byte>, a: seq<byte>, b: seq<byte>)
    ensures Scan(cur, a + b) ==
      (Scan(cur, a).0 + Scan(Scan(cur, a).1, b).0, Scan(Scan(cur, a).1, b).1)
    decreases |a|
  {
    if a == [] {
      assert a + b == b;
      assert [] + Scan(cur, b).0 == Scan(cur, b).0;
    } else {
      assert (a + b)[0] == a[0] && (a + b)[1..] == a[1..] + b;
      if IsTerminator(a[0]) {
        ScanAppend([], a[1..], b);
        var (l1, t1) := Scan([], a[1..]);
        var (l2, t2) := Scan(t1, b);
        assert Emit(cur) + (l1 + l2) == (Emit(cur) + l1) + l2;
      } else {
        ScanAppend(cur + [a[0]], a[1..], b);
      }
    }
  }

  /** An open piece without terminators behaves as if it were part of the input. */
  lemma ScanFromOpenPiece(cur: seq<byte>, s: seq<byte>)
    requires Unterminated(cur)
    ensures Scan(cur, s) == Scan([], cur + s)
  {
    ScanAppend([], cur, s);
    ScanUnterminated([], cur);
    assert [] + cur == cur;
    assert [] + Scan(cur, s).0 == Scan(cur, s).0;
  }

  /**
   * Splitting a concatenation: the lines of `a` followed by the lines of what
   * `a` left open together with `b`.
   */
  lemma LinesAppend(a: seq<byte>, b: seq<byte>)
    ensures Lines(a + b) == Lines(a) + Lines(Tail(a) + b)
    ensures Tail(a + b) == Tail(Tail(a) + b)
  {
    ScanAppend([], a, b);
    LinesWellFramed(a);
    ScanFromOpenPiece(Tail(a), b);
  }

  /**
   * Chunk boundaries do not matter: feeding `c1` and then `c2` to a framer
   * holding `buf` yields the lines and the tail of feeding `c1 + c2` at once,
   * also when `c1` ends in CR and `c2` starts with LF.
   */
  lemma ChunkingIndependent(buf: seq<byte>, c1: seq<byte>, c2: seq<byte>)
    ensures Lines(buf + c1) + Lines(Tail(buf + c1) + c2) == Lines(buf + (c1 + c2))
    ensures Tail(Tail(buf + c1) + c2) == Tail(buf + (c1 + c2))
  {
    LinesAppend(buf + c1, c2);
    assert buf + c1 + c2 == buf + (c1 + c2);
  }

  /**
   * A terminator at index `i`, with none before it, completes the piece
   * `cur + s[..i]`; scanning then restarts after it.
   */
  lemma {:induction false} ScanFirstTerminator(cur: seq<byte>, s: seq<byte>, i: nat)
    requires i < |s| && IsTerminator(s[i]) && Unterminated(s[..i])
    ensures Scan(cur, s) == (Emit(cur + s[..i]) + Lines(s[i + 1..]), Tail(s[i + 1..]))
    decreases i
  {
    if i == 0 {
      assert cur + s[..0] == cur;
    } else {
      assert s[0] in s[..i];
      assert s[1..][..i - 1] == s[1..i];
      assert forall x :: x in s[1..i] ==> x in s[..i];
      ScanFirstTerminator(cur + [s[0]], s[1..], i - 1);
      assert cur + [s[0]] + s[1..][..i - 1] == cur + s[..i];
      assert s[1..][i - 1 + 1..] == s[i + 1..];
    }
  }

  /** One step of the scan. */
  lemma ScanStep(cur: seq<byte>, s: seq<byte>)
    requires s != []
    ensures Scan(cur, s) ==
      if IsTerminator(s[0]) then (Emit(cur) + Lines(s[1..]), Tail(s[1..]))
      else Scan(cur + [s[0]], s[1..])
  {
  }

  /** Rewriting lone CR to LF does not change framing, because both are terminators. */
  lemma {:induction false} ScanReplaceCR(cur: seq<byte>, s: seq<byte>)
    ensures Scan(cur, ReplaceCR(s)) == Scan(cur, s)
    decreases |s|
  {
    if s != [] {
      var r := ReplaceCR(s);
      assert r[1..] == ReplaceCR(s[1..]);
      ScanReplaceCR([], s[1..]);
      ScanReplaceCR(cur + [s[0]], s[1..]);
    }
  }

  /** Rewriting CR LF to LF does not change framing, because the dropped piece between them is empty. */
  lemma {:induction false} ScanReplaceCRLF(cur: seq<byte>, s: seq<byte>)
    ensures Scan(cur, ReplaceCRLF(s)) == Scan(cur, s)
    decreases |s|
  {
    if s == [] {
    } else if |s| >= 2 && s[0] == CR && s[1] == LF {
      var r, t := ReplaceCRLF(s), s[2..];
      assert r[0] == LF && r[1..] == ReplaceCRLF(t);
      assert s[1..][0] == LF && s[1..][1..] == t;
      ScanReplaceCRLF([], t);
      ScanStep(cur, r);
      ScanStep(cur, s);
      ScanStep([], s[1..]);
      assert [] + Lines(t) == Lines(t);
    } else {
      var r := ReplaceCRLF(s);
      assert r[0] == s[0] && r[1..] == ReplaceCRLF(s[1..]);
      ScanStep(cur, r);
      ScanStep(cur, s);
      if IsTerminator(s[0]) {
        ScanReplaceCRLF([], s[1..]);
      } else {
        ScanReplaceCRLF(cur + [s[0]], s[1..]);
      }
    }
  }

  /**
   * The serial monitor's rewrite-then-split and the reference meaning agree:
   * normalising line endings changes neither the lines nor the tail.
   */
  lemma NormalizePreservesFraming(s: seq<byte>)
    ensures Lines(Normalize(s)) == Lines(s) && Tail(Normalize(s)) == Tail(s)
  {
    ScanReplaceCR([], ReplaceCRLF(s));
    ScanReplaceCRLF([], s);
  }

  /**
   * Splitting a CR-free buffer at its first LF yields its first line, if not
   * empty, and leaves the rest of its lines and its tail in the remainder.
   */
  lemma SplitOnceFraming(s: seq<byte>)
    requires LF in s && CR !in s
    ensures Unterminated(SplitOnce(s).0) && CR !in SplitOnce(s).1
    ensures Lines(s) == Emit(SplitOnce(s).0) + Lines(SplitOnce(s).1)
    ensures Tail(s) == Tail(SplitOnce(s).1)
  {
    var (line, rest) := SplitOnce(s);
    assert s[..|line|] == line && s[|line| + 1..] == rest;
    assert forall x :: x in line ==> x in s;
    assert forall x :: x in rest ==> x in s;
    ScanFirstTerminator([], s, |line|);
    assert [] + line == line;
  }

  // ---------------------------------------------------------------------------
  // The LF-separated segments the serial monitor splits off

  /** Each segment followed by an LF, all concatenated. */
  function Joined(segments: seq<seq<byte>>): (r: seq<byte>)
    ensures |r| >= |segments|
  {
    if segments == [] then []
    else Joined(segments[..|segments| - 1]) + segments[|segments| - 1] + [LF]
  }

  /** The non-empty segments, in order. */
  function NonEmpty(segments: seq<seq<byte>>): (r: seq<seq<byte>>)
    ensures |r| <= |segments|
  {
    if segments == [] then []
    else NonEmpty(segments[..|segments| - 1]) + Emit(segments[|segments| - 1])
  }

  /**
   * Splitting the first segment off the unsplit part keeps the bytes: the
   * segments split so far, each with its LF, followed by what is left.
   */
  lemma SplitOffSegment(segments: seq<seq<byte>>, s: seq<byte>)
    requires LF in s
    ensures Joined(segments) + s == Joined(segments + [SplitOnce(s).0]) + SplitOnce(s).1
    ensures NonEmpty(segments + [SplitOnce(s).0]) == NonEmpty(segments) + Emit(SplitOnce(s).0)
  {
    var (line, rest) := SplitOnce(s);
    var segments' := segments + [line];
    assert segments'[..|segments|] == segments;
    assert Joined(segments') == Joined(segments) + line + [LF];
  }

  /**
   * The state of the serial monitor's splitting loop over the normalised
   * buffer `norm`: the `segments` split off so far, each with its LF,
   * followed by the unsplit `rest` make up `norm`; `lines` are the non-empty
   * segments; and the lines and tail of `norm` are `lines` followed by those
   * of `rest`.
   */
  ghost predicate Splitting(norm: seq<byte>, segments: seq<seq<byte>>, lines: seq<seq<byte>>, rest: seq<byte>) {
    CR !in rest &&
    norm == Joined(segments) + rest &&
    lines == NonEmpty(segments) &&
    Lines(norm) == lines + Lines(rest) && Tail(norm) == Tail(rest)
  }

  /** One pass of the splitting loop keeps its state consistent. */
  lemma SplittingStep(norm: seq<byte>, segments: seq<seq<byte>>, lines: seq<seq<byte>>, rest: seq<byte>)
    requires Splitting(norm, segments, lines, rest) && LF in rest
    ensures var (line, rest') := SplitOnce(rest);
      Splitting(norm, segments + [line], lines + Emit(line), rest')
  {
    var (line, rest') := SplitOnce(rest);
    SplitOnceFraming(rest);
    SplitOffSegment(segments, rest);
    assert lines + Lines(rest) == (lines + Emit(line)) + Lines(rest');
  }

  /** When no LF is left, the loop has produced every line and kept exactly the tail. */
  lemma SplittingDone(norm: seq<byte>, segments: seq<seq<byte>>, lines: seq<seq<byte>>, rest: seq<byte>)
    requires Splitting(norm, segments, lines, rest) && LF !in rest
    ensures lines == Lines(norm) && rest == Tail(norm) && Unterminated(rest)
  {
    ScanUnterminated([], rest);
    assert [] + rest == rest && lines + [] == lines;
  }

  /** The splitting loop starts from the whole normalised buffer. */
  lemma SplittingStart(s: seq<byte>)
    ensures Splitting(Normalize(s), [], [], Normalize(s))
  {
    assert Joined([]) + Normalize(s) == Normalize(s);
  }
}
