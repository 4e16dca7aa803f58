/** What one part body read does for every fragmentation of the input: it conserves bytes,
    stays within its bounds, and stops at the first delimiter exactly when no read can push
    that delimiter out of the buffer. */
module MultipartParts {
  import opened Prelude
  import opened MultipartReader

  function Max(a: nat, b: nat): nat {
    if a < b then b else a
  }

  // ---------------------------------------------------------------- the end of a part

  /** How a text behind a delimiter ends the part. */
  function EndOf(text: string): Outcome {
    if |text| < 2 then EndOfBody
    else if !("--" <= text) then (if "\r\n" <= text then Ended(false) else BadTerminator)
    else if |text| < 4 then EndOfBody
    else if text[2..4] == "\r\n" then Ended(true)
    else BadTerminator
  }

  function Terminator(final: bool): string {
    if final then "--\r\n" else "\r\n"
  }

  lemma {:induction false} FillIsExact(buffer: string, input: Input)
    ensures var f := Fill(buffer, input);
      && f.buffer + Rest(f.input) == buffer + Rest(input)
      && (f.ok <==> |buffer| + |Rest(input)| >= 2) && (f.ok ==> |f.buffer| >= 2)
      && |f.buffer| <= Max(|buffer|, 2) && |Rest(f.input)| <= |Rest(input)|
    decreases |Rest(input)|
  {
    if |buffer| < 2 && Rest(input) != "" {
      var size := 2 - |buffer|;
      FillIsExact(buffer + Chunk(input, size), After(input, size));
      Assoc(buffer, Chunk(input, size), Rest(After(input, size)));
    }
  }

  lemma FirstTwo(b: string, r: string, two: string)
    requires |b| >= 2 && |two| == 2
    ensures (b + r)[2..] == b[2..] + r
    ensures two <= b <==> two <= b + r
    ensures two <= b ==> b + r == two + (b[2..] + r)
  {
    assert (b + r)[..2] == b[..2];
    assert b == b[..2] + b[2..];
  }

  lemma CloseIsExact(sunk: string, buffer: string, input: Input, final: bool)
    ensures var p := Close(sunk, buffer, input, final); var text := buffer + Rest(input);
      && p.sunk == sunk
      && p.outcome == (if |text| < 2 then EndOfBody else if "\r\n" <= text then Ended(final) else BadTerminator)
      && |p.buffer| <= Max(|buffer|, 2) && |Rest(p.input)| <= |Rest(input)|
      && (p.outcome.Ended? ==> text == "\r\n" + (p.buffer + Rest(p.input)))
  {
    var g := Fill(buffer, input);
    FillIsExact(buffer, input);
    if g.ok {
      FirstTwo(g.buffer, Rest(g.input), "\r\n");
    }
  }

  /** The end of a part does not depend on how the reads fall. */
  lemma TerminateIsExact(sunk: string, buffer: string, input: Input)
    ensures var p := Terminate(sunk, buffer, input);
      && p.sunk == sunk && p.outcome == EndOf(buffer + Rest(input))
      && |p.buffer| <= Max(|buffer|, 2) && |Rest(p.input)| <= |Rest(input)|
      && (p.outcome.Ended? ==>
            (buffer + Rest(input) == Terminator(p.outcome.final) + (p.buffer + Rest(p.input))))
  {
    var f := Fill(buffer, input);
    FillIsExact(buffer, input);
    if f.ok {
      FirstTwo(f.buffer, Rest(f.input), "--");
      if "--" <= f.buffer {
        CloseIsExact(sunk, f.buffer[2..], f.input, true);
        EndOfFinal(f.buffer[2..] + Rest(f.input));
        var p := Close(sunk, f.buffer[2..], f.input, true);
        FinalTerminator(p.buffer + Rest(p.input));
      } else {
        CloseIsExact(sunk, f.buffer, f.input, false);
      }
    }
  }

  lemma EndOfFinal(t: string)
    ensures EndOf("--" + t) == if |t| < 2 then EndOfBody else if "\r\n" <= t then Ended(true) else BadTerminator
  {
    if |t| >= 2 {
      assert ("--" + t)[2..4] == t[..2];
    }
  }

  lemma FinalTerminator(x: string)
    ensures "--" + ("\r\n" + x) == "--\r\n" + x
  {
    assert "--" + "\r\n" == "--\r\n";
    Assoc("--", "\r\n", x);
  }

  // ---------------------------------------------------------------- conservation

  /** Everything from the start of the part: what was sunk, the buffer, and the rest. */
  function Whole(sunk: string, buffer: string, input: Input): string {
    sunk + (buffer + Rest(input))
  }

  /** A read that pushes bytes from the buffer to the sink loses none. */
  lemma ReadKeepsWhole(sunk: string, buffer: string, input: Input, keep: nat)
    ensures var b, next := buffer + Chunk(input, CHUNK), After(input, CHUNK);
      && Whole(sunk + Pushed(b, keep), Left(b, keep), next) == Whole(sunk, buffer, input)
      && buffer + Rest(input) == Pushed(b, keep) + (Left(b, keep) + Rest(next))
      && |Rest(next)| <= |Rest(input)| && (Rest(input) != "" ==> |Rest(next)| < |Rest(input)|)
  {
    var b, next := buffer + Chunk(input, CHUNK), After(input, CHUNK);
    Assoc(buffer, Chunk(input, CHUNK), Rest(next));
    assert b == Pushed(b, keep) + Left(b, keep);
    Assoc(Pushed(b, keep), Left(b, keep), Rest(next));
    Assoc(sunk, Pushed(b, keep), Left(b, keep) + Rest(next));
  }

  /** Nor does cutting the buffer at a delimiter. */
  lemma CutKeepsWhole(sunk: string, buffer: string, r: string, d: string, k: nat)
    requires At(buffer, d, k)
    ensures sunk + (buffer + r) == (sunk + buffer[..k]) + (d + (buffer[k + |d|..] + r))
    ensures (buffer + r)[..k] == buffer[..k] && (buffer + r)[k + |d|..] == buffer[k + |d|..] + r
  {
    var tail := buffer[k + |d|..];
    assert buffer == buffer[..k] + (d + tail);
    Assoc(buffer[..k], d + tail, r);
    Assoc(d, tail, r);
    Assoc(sunk, buffer[..k], d + (tail + r));
  }

  /** Every successful read of a part body accounts for every byte, in order: what went to
      the sink, the delimiter, the terminator, and what is left. */
  lemma {:induction false} PartsConserveBytes(buffer: string, input: Input, d: string, limit: nat, sunk: string)
    ensures var p := StreamPart(buffer, input, d, limit, sunk);
      && sunk <= p.sunk && p.sunk <= Whole(sunk, buffer, input) && |Rest(p.input)| <= |Rest(input)|
      && (p.outcome.Ended? ==>
            (Whole(sunk, buffer, input)
             == p.sunk + (d + (Terminator(p.outcome.final) + (p.buffer + Rest(p.input))))))
    decreases |Rest(input)|
  {
    match Find(buffer, d) {
      case Some(k) =>
        FindMeans(buffer, d);
        CutKeepsWhole(sunk, buffer, Rest(input), d, k);
        TerminateIsExact(sunk + buffer[..k], buffer[k + |d|..], input);
      case None =>
        ReadKeepsWhole(sunk, buffer, input, Keep(d));
        if Rest(input) != "" {
          var b, next := buffer + Chunk(input, CHUNK), After(input, CHUNK);
          PartsConserveBytes(Left(b, Keep(d)), next, d, limit, sunk + Pushed(b, Keep(d)));
        }
    }
  }

  /** The most the buffer holds. */
  function Bound(buffer: string, d: string): nat {
    Max(|buffer|, Keep(d)) + CHUNK
  }

  /** A part that is read within the limit is within the limit; a part that is not overshoots
      it by at most one buffer; and the buffer is bounded throughout. */
  lemma PartsAreBounded(buffer: string, input: Input, d: string, limit: nat)
    ensures var p := StreamPart(buffer, input, d, limit, "");
      && |p.buffer| <= Bound(buffer, d)
      && (p.outcome != TooLarge ==> |p.sunk| <= limit)
      && (p.outcome == TooLarge ==> limit < |p.sunk| <= limit + Bound(buffer, d))
  {
    PartsStayBounded(buffer, input, d, limit, "", Max(|buffer|, Keep(d)));
  }

  lemma {:induction false} PartsStayBounded(buffer: string, input: Input, d: string, limit: nat, sunk: string, bound: nat)
    requires |sunk| <= limit && |buffer| <= bound && Keep(d) <= bound
    ensures var p := StreamPart(buffer, input, d, limit, sunk);
      && |p.buffer| <= bound + CHUNK
      && (p.outcome != TooLarge ==> |p.sunk| <= limit)
      && (p.outcome == TooLarge ==> limit < |p.sunk| <= limit + bound + CHUNK)
    decreases |Rest(input)|
  {
    match Find(buffer, d) {
      case Some(k) => TerminateIsExact(sunk + buffer[..k], buffer[k + |d|..], input);
      case None =>
        if Rest(input) != "" {
          var b, next := buffer + Chunk(input, CHUNK), After(input, CHUNK);
          var all, left := sunk + Pushed(b, Keep(d)), Left(b, Keep(d));
          if |all| <= limit {
            LeftIsShort(b, Keep(d));
            PartsStayBounded(left, next, d, limit, all, bound);
          }
        }
    }
  }

  lemma LeftIsShort(b: string, keep: nat)
    ensures |Left(b, keep)| <= keep
  {
  }

  // ---------------------------------------------------------------- the first delimiter

  predicate Stops(buffer: string, input: Input, d: string, limit: nat) {
    var text := buffer + Rest(input);
    Find(text, d).Some? && StreamPart(buffer, input, d, limit, "").sunk == text[..Find(text, d).value]
  }

  /** No read can push the first delimiter out: it is in the buffer, or so little follows it
      that it stays among the kept bytes. */
  predicate Safe(buffer: string, rest: string, d: string) {
    var text := buffer + rest;
    Find(text, d).Some? && (Find(buffer, d).Some? || |text| <= Find(text, d).value + |d| + 8)
  }

  /** The last round. */
  lemma FoundAt(buffer: string, input: Input, d: string, limit: nat, sunk: string, k: nat)
    requires Find(buffer, d) == Some(k)
    ensures StreamPart(buffer, input, d, limit, sunk) ==
      if k > 0 && |sunk + buffer[..k]| > limit then Part(sunk + buffer[..k], buffer, input, TooLarge)
      else Terminate(sunk + buffer[..k], buffer[k + |d|..], input)
  {
  }

  /** The part `p` ended at the place `k` of `text`. */
  predicate StoppedAt(p: Part, sunk: string, text: string, d: string, k: nat)
    requires k + |d| <= |text|
  {
    && p.sunk == sunk + text[..k]
    && p.outcome == EndOf(text[k + |d|..])
    && (p.outcome.Ended? ==>
          (text[k + |d|..] == Terminator(p.outcome.final) + (p.buffer + Rest(p.input))))
  }

  lemma StoppedBehind(p: Part, sunk: string, pushed: string, text: string, d: string, k: nat)
    requires |pushed| <= k && k + |d| <= |pushed| + |text|
    requires StoppedAt(p, sunk + pushed, text, d, k - |pushed|)
    ensures StoppedAt(p, sunk, pushed + text, d, k)
  {
    SliceBehind(pushed, text, k, k + |d|);
    Assoc(sunk, pushed, text[..k - |pushed|]);
  }

  lemma StopsHere(buffer: string, input: Input, d: string, limit: nat, sunk: string, k: nat)
    requires Find(buffer, d) == Some(k) && |sunk| + k <= limit
    ensures k + |d| <= |buffer + Rest(input)|
    ensures StoppedAt(StreamPart(buffer, input, d, limit, sunk), sunk, buffer + Rest(input), d, k)
  {
    FindMeans(buffer, d);
    CutKeepsWhole(sunk, buffer, Rest(input), d, k);
    FoundAt(buffer, input, d, limit, sunk, k);
    TerminateIsExact(sunk + buffer[..k], buffer[k + |d|..], input);
  }

  /** One round: the delimiter stays ahead of what is pushed out. */
  lemma SafeStaysAhead(buffer: string, input: Input, d: string, k: nat)
    requires Find(buffer + Rest(input), d) == Some(k) && Find(buffer, d).None?
    requires |buffer + Rest(input)| <= k + |d| + 8
    ensures var b, next := buffer + Chunk(input, CHUNK), After(input, CHUNK);
      var pushed, left := Pushed(b, Keep(d)), Left(b, Keep(d));
      && Rest(input) != "" && |Rest(next)| < |Rest(input)| && |pushed| <= k
      && buffer + Rest(input) == pushed + (left + Rest(next))
      && Find(left + Rest(next), d) == Some(k - |pushed|)
      && |left + Rest(next)| <= (k - |pushed|) + |d| + 8
  {
    MoreIsToCome(buffer, input, d);
    var b, next := buffer + Chunk(input, CHUNK), After(input, CHUNK);
    var pushed, left := Pushed(b, Keep(d)), Left(b, Keep(d));
    ReadKeepsWhole("", buffer, input, Keep(d));
    assert |pushed| + |left| == |b| && |b| <= |buffer + Rest(input)|;
    assert |pushed| <= k;
    FindBehind(pushed, left + Rest(next), d, k);
  }

  /** Under that condition the read stops at the first delimiter, whatever was sunk before. */
  lemma {:induction false} SafePartsStop(buffer: string, input: Input, d: string, limit: nat, sunk: string, k: nat)
    requires Find(buffer + Rest(input), d) == Some(k) && Safe(buffer, Rest(input), d)
    requires |sunk| + k <= limit
    ensures StoppedAt(StreamPart(buffer, input, d, limit, sunk), sunk, buffer + Rest(input), d, k)
    decreases |Rest(input)|
  {
    match Find(buffer, d) {
      case Some(j) =>
        FindInPrefix(buffer, Rest(input), d, j);
        StopsHere(buffer, input, d, limit, sunk, k);
      case None =>
        SafeStaysAhead(buffer, input, d, k);
        var b, next := buffer + Chunk(input, CHUNK), After(input, CHUNK);
        var pushed, left := Pushed(b, Keep(d)), Left(b, Keep(d));
        SafePartsStop(left, next, d, limit, sunk + pushed, k - |pushed|);
        StoppedBehind(StreamPart(buffer, input, d, limit, sunk), sunk, pushed, left + Rest(next), d, k);
    }
  }

  lemma MoreIsToCome(buffer: string, input: Input, d: string)
    requires Find(buffer, d).None? && Find(buffer + Rest(input), d).Some?
    ensures Rest(input) != ""
  {
    assert buffer + "" == buffer;
  }

  lemma SliceBehind(a: string, b: string, k: nat, e: nat)
    requires |a| <= k <= e <= |a| + |b|
    ensures (a + b)[..k] == a + b[..k - |a|] && (a + b)[e..] == b[e - |a|..]
  {
  }

  /** The first place of `p` in `a + b`, when it is not before `b`. */
  lemma FindBehind(a: string, b: string, p: string, k: nat)
    requires Find(a + b, p) == Some(k) && |a| <= k
    ensures Find(b, p) == Some(k - |a|)
  {
    FindMeans(a + b, p);
    forall j | 0 <= j <= k - |a| ensures At(b, p, j) <==> At(a + b, p, |a| + j) {
      if j + |p| <= |b| {
        assert b[j..j + |p|] == (a + b)[|a| + j..|a| + j + |p|];
      }
    }
    FindIs(b, p, k - |a|);
  }

  // ---------------------------------------------------------------- and only then

  /** One byte at a time, `n` times, and then ten at once. */
  function Trickle(n: nat): seq<nat> {
    if n == 0 then [10] else [1] + Trickle(n - 1)
  }

  /** Ten bytes from the last byte of the delimiter on push it out. */
  lemma BurstOverruns(buffer: string, input: Input, d: string, limit: nat, sunk: string, k: nat)
    requires Find(buffer, d).None? && Rest(input) != ""
    requires |buffer| + |Chunk(input, CHUNK)| == k + |d| + 9
    ensures |StreamPart(buffer, input, d, limit, sunk).sunk| > |sunk| + k
  {
    var b, next := buffer + Chunk(input, CHUNK), After(input, CHUNK);
    PartsConserveBytes(Left(b, Keep(d)), next, d, limit, sunk + Pushed(b, Keep(d)));
  }

  /** One byte leaves the delimiter incomplete. */
  lemma DropKeepsItIncomplete(buffer: string, input: Input, d: string, k: nat)
    requires Find(buffer + Rest(input), d) == Some(k) && Find(buffer, d).None?
    requires |Chunk(input, CHUNK)| == 1 && |buffer| + 1 < k + |d|
    ensures var b, next := buffer + Chunk(input, CHUNK), After(input, CHUNK);
      var pushed, left := Pushed(b, Keep(d)), Left(b, Keep(d));
      && |pushed| <= k && |pushed| + |left| == |buffer| + 1
      && Find(left + Rest(next), d) == Some(k - |pushed|) && Find(left, d).None?
  {
    var b, next := buffer + Chunk(input, CHUNK), After(input, CHUNK);
    var pushed, left := Pushed(b, Keep(d)), Left(b, Keep(d));
    ReadKeepsWhole("", buffer, input, Keep(d));
    FindBehind(pushed, left + Rest(next), d, k);
    StillNotThere(pushed, left, Rest(next), d, k);
  }

  /** One byte of a trickle. */
  lemma TrickleStep(input: Input, n: nat, size: nat)
    requires Rest(input) != "" && n > 0 && input.cuts == Trickle(n) && size > 0
    ensures |Chunk(input, size)| == 1
    ensures After(input, size).cuts == Trickle(n - 1) && Rest(After(input, size)) == Rest(input)[1..]
  {
  }

  lemma OneRound(buffer: string, input: Input, d: string, limit: nat, sunk: string)
    requires Find(buffer, d).None? && Rest(input) != ""
    requires |sunk + Pushed(buffer + Chunk(input, CHUNK), Keep(d))| <= limit
    ensures var b := buffer + Chunk(input, CHUNK);
      StreamPart(buffer, input, d, limit, sunk)
        == StreamPart(Left(b, Keep(d)), After(input, CHUNK), d, limit, sunk + Pushed(b, Keep(d)))
  {
  }

  /** One round without a delimiter in the buffer. */
  lemma RoundOf(buffer: string, input: Input, d: string, limit: nat, sunk: string)
    requires Find(buffer, d).None?
    ensures var b, next := buffer + Chunk(input, CHUNK), After(input, CHUNK);
      var all, left := sunk + Pushed(b, Keep(d)), Left(b, Keep(d));
      && (Rest(next) != "" ==> |Rest(next)| <= |Rest(input)|)
      && StreamPart(buffer, input, d, limit, sunk) ==
         if Rest(input) == "" then Part(sunk, buffer, next, EndOfBody)
         else if Pushed(b, Keep(d)) != "" && |all| > limit then Part(all, left, next, TooLarge)
         else StreamPart(left, next, d, limit, all)
  {
  }

  /** Where more than eight bytes follow, single bytes up to the last byte of the delimiter
      and then ten bytes at once push the delimiter out. */
  lemma {:induction false} TrickleOverruns(buffer: string, input: Input, d: string, limit: nat, sunk: string, k: nat, n: nat)
    requires input.cuts == Trickle(n) && Find(buffer + Rest(input), d) == Some(k) && Find(buffer, d).None? && d != ""
    requires |buffer| + n + 1 == k + |d| && |buffer| + |Rest(input)| > k + |d| + 8 && |sunk| + k <= limit
    ensures |StreamPart(buffer, input, d, limit, sunk).sunk| > |sunk| + k
    decreases n, 1
  {
    if n == 0 {
      assert |Chunk(input, CHUNK)| == 10;
      BurstOverruns(buffer, input, d, limit, sunk, k);
    } else {
      TrickleGoesOn(buffer, input, d, limit, sunk, k, n);
    }
  }

  lemma {:induction false} TrickleGoesOn(buffer: string, input: Input, d: string, limit: nat, sunk: string, k: nat, n: nat)
    requires n > 0 && input.cuts == Trickle(n)
    requires Find(buffer + Rest(input), d) == Some(k) && Find(buffer, d).None? && d != ""
    requires |buffer| + n + 1 == k + |d| && |buffer| + |Rest(input)| > k + |d| + 8 && |sunk| + k <= limit
    ensures |StreamPart(buffer, input, d, limit, sunk).sunk| > |sunk| + k
    decreases n, 0
  {
    hide StreamPart, Chunk, After, Trickle, Rest, Find, Pushed, Left;
    TrickleStep(input, n, CHUNK);
    DropKeepsItIncomplete(buffer, input, d, k);
    OneRound(buffer, input, d, limit, sunk);
    var b, next := buffer + Chunk(input, CHUNK), After(input, CHUNK);
    var pushed, left := Pushed(b, Keep(d)), Left(b, Keep(d));
    TrickleOverruns(left, next, d, limit, sunk + pushed, k - |pushed|, n - 1);
  }

  /** The buffer holds no delimiter while the first one is not complete. */
  lemma StillNotThere(a: string, b: string, r: string, d: string, k: nat)
    requires Find(b + r, d) == Some(k - |a|) && |a| <= k && |a| + |b| < k + |d|
    ensures Find(b, d).None?
  {
    if Find(b, d).Some? {
      FindInPrefix(b, r, d, Find(b, d).value);
    }
  }

  /** A delimiter that the buffer does not hold ends behind it. */
  lemma Incomplete(buffer: string, rest: string, d: string, k: nat)
    requires Find(buffer + rest, d) == Some(k) && Find(buffer, d).None?
    ensures |buffer| < k + |d|
  {
    FindMeans(buffer + rest, d);
    FindMeans(buffer, d);
    if k + |d| <= |buffer| {
      AtInPrefix(buffer, rest, d, k);
    }
  }

  lemma AtInPrefix(a: string, b: string, p: string, k: nat)
    requires k + |p| <= |a|
    ensures At(a + b, p, k) <==> At(a, p, k)
  {
    assert (a + b)[k..k + |p|] == a[k..k + |p|];
  }

  /** The main result about one part: with its first delimiter at `k` within the limit, the
      read stops there for every fragmentation if and only if the delimiter is already in the
      buffer or at most eight bytes follow it. */
  lemma StopsForEveryFragmentationIffSafe(buffer: string, rest: string, d: string, limit: nat, k: nat)
    requires Find(buffer + rest, d) == Some(k) && k <= limit && d != ""
    ensures Safe(buffer, rest, d) <==> forall cuts :: Stops(buffer, Input(rest, |rest|, cuts), d, limit)
  {
    var text := buffer + rest;
    if Safe(buffer, rest, d) {
      forall cuts ensures Stops(buffer, Input(rest, |rest|, cuts), d, limit) {
        var input := Input(rest, |rest|, cuts);
        assert Rest(input) == rest;
        SafePartsStop(buffer, input, d, limit, "", k);
      }
    } else {
      Incomplete(buffer, rest, d, k);
      var n := k + |d| - 1 - |buffer|;
      var input := Input(rest, |rest|, Trickle(n));
      assert Rest(input) == rest;
      TrickleOverruns(buffer, input, d, limit, "", k, n);
      assert !Stops(buffer, input, d, limit);
    }
  }

  /** A part whose first delimiter lies beyond the limit is refused for every fragmentation. */
  lemma {:induction false} LargePartsAreRefused(buffer: string, input: Input, d: string, limit: nat, sunk: string, k: nat)
    requires Find(buffer + Rest(input), d) == Some(k) && |sunk| + k > limit && |sunk| <= limit
    ensures StreamPart(buffer, input, d, limit, sunk).outcome == TooLarge
    decreases |Rest(input)|
  {
    var text := buffer + Rest(input);
    match Find(buffer, d) {
      case Some(j) => FindInPrefix(buffer, Rest(input), d, j);
      case None =>
        MoreIsToCome(buffer, input, d);
        ReadKeepsWhole(sunk, buffer, input, Keep(d));
        var b, next := buffer + Chunk(input, CHUNK), After(input, CHUNK);
        var all, left := sunk + Pushed(b, Keep(d)), Left(b, Keep(d));
        if |all| <= limit {
          FindBehind(Pushed(b, Keep(d)), left + Rest(next), d, k);
          LargePartsAreRefused(left, next, d, limit, all, k - |Pushed(b, Keep(d))|);
        }
    }
  }
}
