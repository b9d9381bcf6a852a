/**
 * helpers.c: the process-wide POSIX.1-2001 generator behind `randint`, its
 * one-shot "skip reseed" flag, and the bounded string copy and duplicate.
 */
module Helpers {

  const INT_MAX: int := 0x7FFF_FFFF
  const INT_MIN: int := -0x8000_0000
  const UINT_MAX: int := 0xFFFF_FFFF
  const SIZE_MAX: int := 0xFFFF_FFFF_FFFF_FFFF

  /** A C `int`: every arithmetic step on it is checked to stay in range. */
  newtype int32 = x: int | -0x8000_0000 <= x < 0x8000_0000

  /** A C `unsigned int` / `uint32_t`. */
  newtype uint32 = x: int | 0 <= x < 0x1_0000_0000

  /** A C `size_t` on a 64-bit target. */
  newtype size_t = x: int | 0 <= x < 0x1_0000_0000_0000_0000

  // ---------------------------------------------------------------------
  // The linear congruential generator (helpers.c:71-104)
  // ---------------------------------------------------------------------

  /** The state update of `randint`: multiply and add, wrapping modulo 2^32. */
  function LcgNext(x: uint32): uint32 {
    ((x as int * 1103515245 + 12345) % 0x1_0000_0000) as uint32
  }

  /** The raw value `randint` reduces: bits 16 to 30 of the new state. */
  function LcgOutput(x: uint32): (r: int)
    ensures 0 <= r < 32768
  {
    (x as int / 65536) % 32768
  }

  /** The state after `k` steps from `x`: each step past the first applies one more LcgNext. */
  function LcgIter(x: uint32, k: nat): (y: uint32)
    ensures k > 0 ==> y == LcgNext(LcgIter(x, k - 1))
    decreases k
  {
    if k == 0 then x else LcgIter(LcgNext(x), k - 1)
  }

  /**
   * The raw values of the next `k` calls of `randint` when the state is `x`;
   * the call asking for `randint(n)` returns the corresponding value `% n`.
   */
  function RawStream(x: uint32, k: nat): (s: seq<nat>)
    ensures |s| == k
    ensures RawDraws(s)
    decreases k
  {
    if k == 0 then [] else [LcgOutput(LcgNext(x))] + RawStream(LcgNext(x), k - 1)
  }

  /** Values the generator can yield: `randint` reduces one of these, never more than 32767. */
  predicate RawDraws(s: seq<nat>) {
    forall k :: 0 <= k < |s| ==> s[k] < 32768
  }

  lemma {:induction false} RawStreamAt(x: uint32, k: nat, i: nat)
    requires i < k
    ensures RawStream(x, k)[i] == LcgOutput(LcgIter(x, i + 1))
    decreases k
  {
    if i > 0 {
      RawStreamAt(LcgNext(x), k - 1, i - 1);
    }
  }

  /**
   * The globals `want_init_random`, `random_seed` and `random_buf`.
   * The seed source (getrandom, or the clock) is a parameter of MaybeInitRandom.
   */
  class Prng {
    var wantInitRandom: bool
    var randomSeed: uint32
    var randomBuf: uint32

    /** Static initialisation: the flag is armed and the zero-initialised words are 0. */
    constructor ()
      ensures wantInitRandom && randomSeed == 0 && randomBuf == 0
    {
      wantInitRandom, randomSeed, randomBuf := true, 0, 0;
    }

    /**
     * Reseeds from `entropy` unless the skip flag was set, re-arms the flag,
     * and always restarts the stream from the seed.
     */
    method MaybeInitRandom(entropy: uint32)
      modifies this
      ensures wantInitRandom
      ensures randomSeed == (if old(wantInitRandom) then entropy else old(randomSeed))
      ensures randomBuf == randomSeed
    {
      var doInitRandom := wantInitRandom;
      wantInitRandom := true;
      if doInitRandom {
        randomSeed := entropy;
      }
      randomBuf := randomSeed;
    }

    /** Makes the next MaybeInitRandom keep the current seed. */
    method SkipNextInitRandom()
      modifies this
      ensures !wantInitRandom
      ensures randomSeed == old(randomSeed) && randomBuf == old(randomBuf)
    {
      wantInitRandom := false;
    }

    /** `randint(n)`: one LCG step, then the raw 15-bit value reduced modulo n. */
    method RandInt(n: int) returns (r: int)
      requires n > 0
      modifies this
      ensures randomBuf == LcgNext(old(randomBuf))
      ensures r == RawStream(old(randomBuf), 1)[0] % n
      ensures 0 <= r < n && r < 32768
      ensures wantInitRandom == old(wantInitRandom) && randomSeed == old(randomSeed)
    {
      ghost var before := randomBuf;
      randomBuf := LcgNext(randomBuf);
      var raw := LcgOutput(randomBuf);
      assert RawStream(before, 1) == [raw] + RawStream(randomBuf, 0);
      ModBelow(raw, n);
      r := raw % n;
    }
  }

  /** Reducing never increases a non-negative value. */
  lemma ModBelow(x: nat, n: int)
    requires n > 0
    ensures 0 <= x % n <= x
  {
    if x >= n {
      assert x % n < n;
    }
  }

  /**
   * Replay: with the flag skipped, the next initialisation restarts the same
   * seed, so a draw made after it repeats the draw made after the previous
   * initialisation, whatever the fresh entropy offered the second time.
   */
  method ReplayAfterSkip(p: Prng, first: uint32, second: uint32, n: int) returns (x: int, y: int)
    requires n > 0
    modifies p
    ensures x == y
    ensures p.wantInitRandom
  {
    p.MaybeInitRandom(first);
    x := p.RandInt(n);
    p.SkipNextInitRandom();
    p.MaybeInitRandom(second);
    y := p.RandInt(n);
  }

  // ---------------------------------------------------------------------
  // C strings (helpers.c:45-69)
  // ---------------------------------------------------------------------

  /** The text of a NUL-terminated buffer: everything before its first NUL. */
  function CString(buf: seq<char>): (s: string)
    ensures |s| <= |buf| && s == buf[..|s|] && '\0' !in s
    ensures |s| < |buf| ==> buf[|s|] == '\0'
  {
    if buf == [] || buf[0] == '\0' then [] else [buf[0]] + CString(buf[1..])
  }

  function Min(a: int, b: int): int { if a < b then a else b }

  /**
   * `d0_strlcpy`: copies the longest prefix of `src` that fits in `dstSize`
   * bytes and terminates it; with `dstSize == 0` nothing is written.
   */
  method StrLCopy(dst: array<char>, src: string, dstSize: size_t)
    requires '\0' !in src && |src| < SIZE_MAX
    requires dstSize as int <= dst.Length
    modifies dst
    ensures dstSize == 0 ==> dst[..] == old(dst[..])
    ensures dstSize > 0 ==>
      var n := Min(|src|, dstSize as int - 1);
      && dst[..n] == src[..n]
      && dst[n] == '\0'
      && dst[n + 1..] == old(dst[n + 1..])
    ensures dstSize > 0 ==> CString(dst[..]) == src[..Min(|src|, dstSize as int - 1)]
  {
    if dstSize == 0 {
      return;
    }
    var dstLen := dstSize - 1;
    var srcLen := |src| as size_t;
    var copyLen := if srcLen < dstLen then srcLen else dstLen;
    forall i | 0 <= i < copyLen as int {
      dst[i] := src[i];
    }
    dst[copyLen] := '\0';
    forall i | 0 <= i < copyLen as int ensures dst[i] != '\0' {
      assert dst[i] == src[i] && src[i] in src;
    }
    CStringOfTerminated(dst[..], copyLen as int);
  }

  lemma {:induction false} CStringOfTerminated(buf: seq<char>, n: nat)
    requires n < |buf| && buf[n] == '\0'
    requires forall i :: 0 <= i < n ==> buf[i] != '\0'
    ensures CString(buf) == buf[..n]
  {
    if n > 0 {
      CStringOfTerminated(buf[1..], n - 1);
    }
  }

  /**
   * `d0_strndup`: a fresh buffer of `n + 1` bytes holding the first
   * `min(strlen(s), n)` characters of `s`, terminated; NULL when `n + 1`
   * wraps around.
   */
  method StrNDup(s: string, n: size_t) returns (out: array?<char>)
    requires '\0' !in s && |s| < SIZE_MAX
    ensures out == null <==> n as int == SIZE_MAX
    ensures out != null ==>
      && fresh(out)
      && out.Length == n as int + 1
      && CString(out[..]) == s[..Min(|s|, n as int)]
  {
    var size := ((n as int + 1) % 0x1_0000_0000_0000_0000) as size_t;
    if size < n {
      return null;
    }
    out := new char[size];
    StrLCopy(out, s, size);
  }
}
