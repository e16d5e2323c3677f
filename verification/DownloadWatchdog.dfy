/** The watch over a running download: when it lets the process be, when it ends it, and how a failed exit is
answered. */
module DownloadWatchdog {
  import opened Options
  import opened Text

  /** What one pass of the loop sees: the seconds since the start, whether the process runs and its output is
  read to the end, the size of the downloaded file if there is one, and whether the process still runs later
  in the same pass. */
  datatype Sample = Sample(time: real, running: bool, outputDone: bool, size: Option<nat>, stillRunning: bool)

  type World = nat -> Sample

  datatype Verdict = Finished | TimedOut | Hung

  const LIMIT := 21600.0 // six hours
  const PAUSE := 30.0
  const MAX_STALLED := 20

  /** Each pass ends with a sleep. */
  ghost predicate Paced(world: World) {
    && world(0).time >= 0.0
    && forall j: nat, k: nat :: k == j + 1 ==> world(k).time >= world(j).time + PAUSE
  }

  predicate Goes(s: Sample) { s.running || !s.outputDone }

  function Largest(world: World, n: nat): nat {
    if n == 0 then 0
    else
      var before := Largest(world, n - 1);
      match world(n - 1).size
      case None => before
      case Some(size) => if size > before then size else before
  }

  predicate Grew(world: World, k: nat) { world(k).size.Some? && world(k).size.value > Largest(world, k) }

  /** Passes that saw a file since it last grew; a pass without a file changes nothing. */
  function Stalled(world: World, n: nat): nat {
    if n == 0 then 0
    else if world(n - 1).size.None? then Stalled(world, n - 1)
    else if Grew(world, n - 1) then 0
    else Stalled(world, n - 1) + 1
  }

  predicate Hangs(world: World, k: nat) {
    world(k).size.Some? && Stalled(world, k + 1) >= MAX_STALLED && world(k).stillRunning
  }

  lemma {:induction false} TimeAdvances(world: World, j: nat, k: nat)
    requires Paced(world) && j <= k
    ensures world(k).time >= world(j).time + PAUSE * (k - j) as real
    decreases k
  {
    if j < k {
      TimeAdvances(world, j, k - 1);
    }
  }

  /** Ends within 722 passes, whatever the process does; `pass` is the one that ended it. */
  method Watch(world: World) returns (verdict: Verdict, pass: nat, lastFileSize: nat)
    requires Paced(world)
    ensures pass <= 721
    ensures verdict.Finished? <==> !world(pass).running && world(pass).outputDone
    ensures verdict.TimedOut? <==>
      (world(pass).running || !world(pass).outputDone) && world(pass).time > 6.0 * 60.0 * 60.0
    ensures verdict.Hung? ==> Hangs(world, pass)
    ensures forall k: nat :: k < pass ==> Goes(world(k)) && world(k).time <= LIMIT && !Hangs(world, k)
    ensures lastFileSize == Largest(world, if verdict.Hung? then pass + 1 else pass)
  {
    lastFileSize, pass := 0, 0;
    var noProgress := 0;
    TimeAdvances(world, 0, 0);
    while Goes(world(pass))
      invariant lastFileSize == Largest(world, pass)
      invariant noProgress == Stalled(world, pass)
      invariant world(pass).time >= PAUSE * pass as real && pass <= 721
      invariant forall k: nat :: k < pass ==> Goes(world(k)) && world(k).time <= LIMIT && !Hangs(world, k)
      decreases 721 - pass
    {
      if world(pass).time > LIMIT { return TimedOut, pass, lastFileSize; }
      if world(pass).size.Some? {
        var fileSize := world(pass).size.value;
        if fileSize > lastFileSize {
          lastFileSize, noProgress := fileSize, 0;
        } else {
          noProgress := noProgress + 1;
          if noProgress >= MAX_STALLED && world(pass).stillRunning { return Hung, pass, lastFileSize; }
        }
      }
      assert world(pass + 1).time >= world(pass).time + PAUSE;
      pass := pass + 1;
    }
    verdict := Finished;
  }

  lemma {:induction false} LargestIsMaximum(world: World, n: nat)
    ensures forall k: nat :: k < n && world(k).size.Some? ==> world(k).size.value <= Largest(world, n)
    ensures Largest(world, n) == 0 || exists k: nat :: k < n && world(k).size == Some(Largest(world, n))
  {
    if n > 0 { LargestIsMaximum(world, n - 1); }
  }

  /** The pass after the last growth; zero if nothing ever grew. */
  function SinceGrowth(world: World, n: nat): (m: nat)
    ensures m <= n && (m > 0 ==> Grew(world, m - 1))
  {
    if n == 0 then 0 else if Grew(world, n - 1) then n else SinceGrowth(world, n - 1)
  }

  lemma {:induction false} NoGrowthSince(world: World, n: nat)
    ensures Largest(world, n) == Largest(world, SinceGrowth(world, n))
    ensures Stalled(world, n) <= n - SinceGrowth(world, n)
    ensures forall k: nat :: SinceGrowth(world, n) <= k < n ==> !Grew(world, k)
  {
    if n > 0 { NoGrowthSince(world, n - 1); }
  }

  /** How many passes from `m` on, and before `n`, saw a file. */
  function Sightings(world: World, m: nat, n: nat): nat
    requires m <= n
  {
    if m == n then 0 else Sightings(world, m, n - 1) + if world(n - 1).size.Some? then 1 else 0
  }

  /** The count of passes without progress is that of the passes that saw a file since it last grew. */
  lemma {:induction false} StalledCountsSightings(world: World, n: nat)
    ensures Stalled(world, n) == Sightings(world, SinceGrowth(world, n), n)
  {
    if n > 0 { StalledCountsSightings(world, n - 1); }
  }

  /** The pass that the stalled time counts from: the last that saw the file grow, or the first. */
  function Reference(world: World, k: nat): (r: nat)
    ensures r <= k + 1
  {
    var m := SinceGrowth(world, k + 1);
    if m > 0 then m - 1 else 0
  }

  lemma StalledLong(world: World, k: nat)
    requires Paced(world) && Hangs(world, k)
    ensures Reference(world, k) <= k && k >= 19 && (SinceGrowth(world, k + 1) > 0 ==> k - Reference(world, k) >= 20)
    ensures world(k).time >= world(Reference(world, k)).time + PAUSE * (k - Reference(world, k)) as real
  {
    var m := SinceGrowth(world, k + 1);
    NoGrowthSince(world, k + 1);
    assert k + 1 - m >= MAX_STALLED;
    TimeAdvances(world, Reference(world, k), k);
  }

  /** A process taken to be hung was running, and for at least 600 seconds since the file last grew, or 570
  since the first pass if it never did, no pass saw it grow. */
  lemma HungMeansNoGrowth(world: World, k: nat)
    requires Paced(world) && Hangs(world, k)
    ensures var m := SinceGrowth(world, k + 1);
      && world(k).stillRunning
      && (forall i: nat :: m <= i <= k && world(i).size.Some? ==> world(i).size.value <= Largest(world, m))
      && world(k).time >= world(Reference(world, k)).time + if m > 0 then 600.0 else 570.0
  {
    StalledLong(world, k);
    NoGrowthSince(world, k + 1);
    LargestIsMaximum(world, k + 1);
  }

  lemma {:induction false} StalledAtMost(world: World, n: nat)
    ensures Stalled(world, n) <= n
    ensures Stalled(world, n) == n <==> SinceGrowth(world, n) == 0 && forall i: nat :: i < n ==> world(i).size.Some?
  {
    if n > 0 { StalledAtMost(world, n - 1); }
  }

  /** The passes come exactly half a minute apart. */
  ghost predicate ExactlyPaced(world: World) { forall k: nat :: world(k).time == PAUSE * k as real }

  /** The message claims 600 seconds. That much has passed whenever the watch is past its twentieth pass, and with
  exact pauses only then; so the claim fails exactly when the file was there from the first pass on and never
  grew in the first twenty. */
  lemma SixHundredIff(world: World, k: nat)
    requires Paced(world) && Hangs(world, k)
    ensures k >= 20 ==> world(k).time >= world(Reference(world, k)).time + 600.0
    ensures ExactlyPaced(world) ==> (world(k).time >= world(Reference(world, k)).time + 600.0 <==> k >= 20)
    ensures k < 20 <==> k == 19 && SinceGrowth(world, 20) == 0 && forall i: nat :: i < 20 ==> world(i).size.Some?
  {
    StalledLong(world, k);
    StalledAtMost(world, k + 1);
    if SinceGrowth(world, k + 1) == 0 { TimeAdvances(world, 0, k); }
  }

  /** A file of size zero that is there from the start and never grows. */
  function EmptyFile(k: nat): Sample { Sample(PAUSE * k as real, true, false, Some(0), true) }

  lemma {:induction false} EmptyFileStalls(n: nat)
    ensures Largest(EmptyFile, n) == 0 && Stalled(EmptyFile, n) == n
  {
    if n > 0 { EmptyFileStalls(n - 1); }
  }

  /** And it does fail: such a download is ended after 570 seconds, on the first pass that calls it hung. */
  lemma HungAfter570()
    ensures Paced(EmptyFile) && ExactlyPaced(EmptyFile)
    ensures Hangs(EmptyFile, 19) && EmptyFile(19).time == 570.0
    ensures forall k: nat :: k < 19 ==> Goes(EmptyFile(k)) && EmptyFile(k).time <= LIMIT && !Hangs(EmptyFile, k)
  {
    forall k: nat ensures Stalled(EmptyFile, k) == k { EmptyFileStalls(k); }
  }

  // ---- how a failed exit is answered ----

  /** `str` of an exit code. */
  function ExitText(code: int): string { if code < 0 then "-" + Digits(-code) else Digits(code) }

  predicate StandsAt(s: string, i: nat, pattern: string) { i + |pattern| <= |s| && s[i..i + |pattern|] == pattern }

  predicate Contains(s: string, pattern: string) { exists i :: 0 <= i <= |s| && StandsAt(s, i, pattern) }

  datatype Wait = RateLimit | Reset | Timeout | Generic

  /** The wait chosen before the next attempt, from the text of the exit code alone. */
  function WaitFor(code: int): Wait {
    var text := ExitText(code);
    if Contains(text, "429") || Contains(Lower(text), "rate limit") then RateLimit
    else if Contains(Lower(text), "econnreset") || Contains(Lower(text), "connection reset") then Reset
    else if Contains(Lower(text), "timeout") || Contains(Lower(text), "etimedout") then Timeout
    else Generic
  }

  lemma NoLetters(code: int, pattern: string)
    requires pattern != "" && 'a' <= pattern[0] <= 'z'
    ensures !Contains(Lower(ExitText(code)), pattern)
  {
    var text := ExitText(code);
    forall i | 0 <= i <= |text| ensures !StandsAt(Lower(text), i, pattern) {
      if i + |pattern| <= |text| {
        assert text[i] == '-' || IsDigit(text[i]);
        assert Lower(text)[i..i + |pattern|][0] == Lower(text)[i] == text[i];
      }
    }
  }

  /** An exit code has no letters, so the waits for a reset or a timeout are never chosen, and the wait for rate
  limiting only for a code whose digits contain 429. */
  lemma WaitsAreGenericIff(code: int)
    ensures WaitFor(code) == if Contains(ExitText(code), "429") then RateLimit else Generic
  {
    NoLetters(code, "rate limit");
    NoLetters(code, "econnreset");
    NoLetters(code, "connection reset");
    NoLetters(code, "timeout");
    NoLetters(code, "etimedout");
  }

  lemma SmallDigits(n: nat)
    requires n < 400
    ensures |Digits(n)| <= 3 && (|Digits(n)| == 3 ==> Digits(n)[0] != '4')
  {
    if n >= 10 {
      var tens := n / 10;
      if tens >= 10 { assert Digits(tens / 10) == [Digit(tens / 10)]; }
      assert Digits(n) == Digits(tens) + [Digit(n % 10)];
    }
  }

  /** Exit codes of a POSIX process, negative for a signal, are never read as rate limiting. */
  lemma PosixExitsAreGeneric(code: int)
    requires -64 <= code <= 255
    ensures WaitFor(code) == Generic
  {
    WaitsAreGenericIff(code);
    var text := ExitText(code);
    SmallDigits(if code < 0 then -code else code);
    if code < 0 { assert |Digits(-code)| <= 2 by { assert -code < 100; } }
    forall i | 0 <= i <= |text| ensures !StandsAt(text, i, "429") {
      if i + 3 <= |text| { assert text[i..i + 3][0] == text[0]; }
    }
  }

  function DropDigits(n: nat, k: nat): nat { if k == 0 then n else DropDigits(n / 10, k - 1) }

  lemma {:induction false} LeadingDigits(n: nat, k: nat)
    requires DropDigits(n, k) == 429
    ensures |Digits(n)| >= 3 && Digits(n)[..3] == "429"
    decreases k
  {
    if k == 0 {
      assert Digits(429) == [Digit(4), Digit(2), Digit(9)];
    } else {
      LeadingDigits(n / 10, k - 1);
    }
  }

  /** A longer code that begins with these digits is, such as minus one taken for an unsigned 32-bit number. */
  lemma LongCodesCanBeRateLimit(n: nat, k: nat)
    ensures DropDigits(n, k) == 429 ==> WaitFor(n) == RateLimit
    ensures DropDigits(0xFFFF_FFFF, 7) == 429
  {
    if DropDigits(n, k) == 429 {
      LeadingDigits(n, k);
      WaitsAreGenericIff(n);
      assert StandsAt(ExitText(n), 0, "429");
    }
  }
}
