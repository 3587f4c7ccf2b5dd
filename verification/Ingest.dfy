/**
 The coupon ingestion of cmd/coupon-ingest/main.go as functions on values: one filter per file,
 a second pass that consults the other files' filters, a merge of bit masks.

 A file is the sequence of its lines. A filter is known only by its contract.
 */
module Ingest {
  import opened Common
  import opened Bits

  const MIN_CODE_LEN := 8
  const MAX_CODE_LEN := 10
  const UINT_BITS := 64

  /** The three operations of a Bloom filter, for any representation F. */
  datatype Bloom<!F> = Bloom(empty: F, add: (F, string) -> F, test: (F, string) -> bool)

  /** The contract: an added string tests true, and nothing stops testing true. False positives are free. */
  ghost predicate NoFalseNegatives<F(!new)>(b: Bloom<F>) {
    && (forall f, s :: b.test(b.add(f, s), s))
    && (forall f, s, t :: b.test(f, t) ==> b.test(b.add(f, s), t))
  }

  predicate Eligible(code: string) {
    MIN_CODE_LEN <= |code| <= MAX_CODE_LEN
  }

  function Fold<A>(step: (A, string) -> A, init: A, lines: seq<string>): A {
    if lines == [] then init
    else step(Fold(step, init, lines[..|lines| - 1]), lines[|lines| - 1])
  }

  lemma FoldNext<A>(step: (A, string) -> A, init: A, lines: seq<string>, k: nat)
    requires k < |lines|
    ensures Fold(step, init, lines[..k + 1]) == step(Fold(step, init, lines[..k]), lines[k])
  {
    assert lines[..k + 1][..k] == lines[..k];
  }

  // ---------------------------------------------------------------- pass 1

  function AddEligible<F>(b: Bloom<F>): (F, string) -> F {
    (f, line) => if Eligible(line) then b.add(f, line) else f
  }

  function FilterOf<F>(b: Bloom<F>, lines: seq<string>): F {
    Fold(AddEligible(b), b.empty, lines)
  }

  function FiltersOf<F>(b: Bloom<F>, files: seq<seq<string>>): seq<F> {
    seq(|files|, i requires 0 <= i < |files| => FilterOf(b, files[i]))
  }

  /** Every eligible line of a file tests true in its filter. */
  lemma {:induction false} FilterComplete<F(!new)>(b: Bloom<F>, lines: seq<string>, code: string)
    requires NoFalseNegatives(b) && code in lines && Eligible(code)
    ensures b.test(FilterOf(b, lines), code)
    decreases |lines|
  {
    var front, last := lines[..|lines| - 1], lines[|lines| - 1];
    assert lines == front + [last];
    if code != last { FilterComplete(b, front, code); }
  }

  // ---------------------------------------------------------------- pass 2

  /** The bit of file idx: shifting a uint by its width or more gives zero. */
  function FileBit(idx: nat): nat {
    if idx < UINT_BITS then Pow2(idx) else 0
  }

  function Mask(m: map<string, nat>, code: string): nat {
    if code in m then m[code] else 0
  }

  /** Some other file's filter has the code, or claims to. */
  predicate Hits<F>(b: Bloom<F>, filters: seq<F>, idx: nat, code: string) {
    exists j | 0 <= j < |filters| :: j != idx && b.test(filters[j], code)
  }

  function Mark<F>(b: Bloom<F>, filters: seq<F>, idx: nat): (map<string, nat>, string) -> map<string, nat> {
    (m: map<string, nat>, line: string) =>
      if Eligible(line) && Hits(b, filters, idx, line)
      then m[line := Bitwise(Or, Mask(m, line), FileBit(idx))]
      else m
  }

  function Candidates<F>(b: Bloom<F>, filters: seq<F>, idx: nat, lines: seq<string>): map<string, nat> {
    Fold(Mark(b, filters, idx), map[], lines)
  }

  lemma OrIdempotent(x: nat)
    ensures Bitwise(Or, x, x) == x && Bitwise(Or, 0, x) == x
  {
    forall i: nat ensures Bit(Bitwise(Or, x, x), i) == Bit(x, i) { BitwiseBit(Or, x, x, i); }
    SameBits(Bitwise(Or, x, x), x);
    forall i: nat ensures Bit(Bitwise(Or, 0, x), i) == Bit(x, i) { BitwiseBit(Or, 0, x, i); ZeroHasNoBits(i); }
    SameBits(Bitwise(Or, 0, x), x);
  }

  /** The candidates of a file are its eligible lines that hit; repeats leave the file's single bit. */
  lemma {:induction false} CandidatesSpec<F>(b: Bloom<F>, filters: seq<F>, idx: nat, lines: seq<string>, code: string)
    ensures var m := Candidates(b, filters, idx, lines);
            && (code in m <==> code in lines && Eligible(code) && Hits(b, filters, idx, code))
            && (code in m ==> m[code] == FileBit(idx))
    decreases |lines|
  {
    if lines != [] {
      var front, last := lines[..|lines| - 1], lines[|lines| - 1];
      assert lines == front + [last];
      CandidatesSpec(b, filters, idx, front, code);
      OrIdempotent(FileBit(idx));
    }
  }

  // ---------------------------------------------------------------- the merge

  function MergeInto(m: map<string, nat>, r: map<string, nat>): map<string, nat> {
    map code | code in m.Keys + r.Keys :: Bitwise(Or, Mask(m, code), Mask(r, code))
  }

  function Merged(results: seq<map<string, nat>>): map<string, nat> {
    if results == [] then map[]
    else MergeInto(Merged(results[..|results| - 1]), results[|results| - 1])
  }

  lemma {:induction false} MergedBit(results: seq<map<string, nat>>, code: string, i: nat)
    ensures Bit(Mask(Merged(results), code), i) <==> exists j | 0 <= j < |results| :: Bit(Mask(results[j], code), i)
    decreases |results|
  {
    if results == [] {
      ZeroHasNoBits(i);
    } else {
      var front, last := results[..|results| - 1], results[|results| - 1];
      MergedBit(front, code, i);
      BitwiseBit(Or, Mask(Merged(front), code), Mask(last, code), i);
      assert forall j | 0 <= j < |front| :: front[j] == results[j];
      if code !in Merged(results) { ZeroHasNoBits(i); }
    }
  }

  /** The codes kept: at least two bits in the merged mask. */
  function Valid(results: seq<map<string, nat>>): set<string> {
    var m := Merged(results);
    set code | code in m && OnesCount(m[code]) >= 2
  }

  function AllCandidates<F>(b: Bloom<F>, filters: seq<F>, files: seq<seq<string>>): seq<map<string, nat>> {
    seq(|files|, i requires 0 <= i < |files| => Candidates(b, filters, i, files[i]))
  }

  /** What the whole pipeline computes when no worker fails. */
  function ValidCodes<F>(b: Bloom<F>, files: seq<seq<string>>): set<string> {
    Valid(AllCandidates(b, FiltersOf(b, files), files))
  }

  // ---------------------------------------------------------------- exactness

  /** The files, among the first `UINT_BITS`, that contain the code. */
  function FilesWith(files: seq<seq<string>>, code: string): set<nat> {
    set i: nat | i < |files| && i < UINT_BITS && code in files[i]
  }

  predicate InTwoFiles(files: seq<seq<string>>, code: string) {
    |FilesWith(files, code)| >= 2
  }

  function MergedMask<F>(b: Bloom<F>, files: seq<seq<string>>, code: string): nat {
    Mask(Merged(AllCandidates(b, FiltersOf(b, files), files)), code)
  }

  /** A bit is set exactly for a file that has the code and where another file's filter claims it too. */
  lemma MaskBits<F>(b: Bloom<F>, files: seq<seq<string>>, code: string, i: nat)
    ensures Bit(MergedMask(b, files, code), i)
       <==> i in FilesWith(files, code) && Eligible(code) && Hits(b, FiltersOf(b, files), i, code)
  {
    var filters := FiltersOf(b, files);
    var results := AllCandidates(b, filters, files);
    MergedBit(results, code, i);
    forall j: nat | j < |results|
      ensures Bit(Mask(results[j], code), i)
         <==> j == i && i < UINT_BITS && code in files[j] && Eligible(code) && Hits(b, filters, j, code)
    {
      CandidatesSpec(b, filters, j, files[j], code);
      Pow2Bit(j, i);
      ZeroHasNoBits(i);
    }
  }

  /** Two files that share an eligible code find each other, whatever else the filters claim. */
  lemma SharedCodeHits<F(!new)>(b: Bloom<F>, files: seq<seq<string>>, code: string, i: nat, j: nat)
    requires NoFalseNegatives(b) && Eligible(code)
    requires i != j && i < |files| && j < |files| && code in files[j]
    ensures Hits(b, FiltersOf(b, files), i, code)
  {
    FilterComplete(b, files[j], code);
    assert FiltersOf(b, files)[j] == FilterOf(b, files[j]);
  }

  lemma TwoElements<T>(s: set<T>, x: T) returns (y: T)
    requires |s| >= 2
    ensures y in s && y != x
  {
    if s - {x} == {} { assert s <= {x}; SubsetSize(s, {x}); }
    y :| y in s - {x};
  }

  /**
   The mask of a code that two files share counts exactly the files that have it; the mask of
   any other code has at most one bit, however many false positives the filters give.
   */
  lemma MaskCountsFiles<F(!new)>(b: Bloom<F>, files: seq<seq<string>>, code: string)
    requires NoFalseNegatives(b)
    ensures Eligible(code) && InTwoFiles(files, code) ==>
              OnesCount(MergedMask(b, files, code)) == |FilesWith(files, code)|
    ensures !(Eligible(code) && InTwoFiles(files, code)) ==> OnesCount(MergedMask(b, files, code)) <= 1
  {
    var m, fs := MergedMask(b, files, code), FilesWith(files, code);
    OnesCountIsSize(m);
    forall i: nat ensures i in BitSet(m) ==> i in fs && Eligible(code) { MaskBits(b, files, code, i); }
    assert BitSet(m) <= fs;
    if Eligible(code) && |fs| >= 2 {
      forall i | i in fs ensures i in BitSet(m) {
        var j := TwoElements(fs, i);
        SharedCodeHits(b, files, code, i, j);
        MaskBits(b, files, code, i);
      }
      assert BitSet(m) == fs;
    } else if Eligible(code) {
      SubsetSize(BitSet(m), fs);
    } else {
      assert BitSet(m) == {};
    }
  }

  /**
   The result is exact for every filter that honours its contract: a code is kept if and only
   if it has 8 to 10 characters and occurs in at least two of the (first 64) files.
   */
  lemma Exactness<F(!new)>(b: Bloom<F>, files: seq<seq<string>>, code: string)
    requires NoFalseNegatives(b)
    ensures code in ValidCodes(b, files) <==> 8 <= |code| <= 10 && InTwoFiles(files, code)
  {
    MaskCountsFiles(b, files, code);
    var m := Merged(AllCandidates(b, FiltersOf(b, files), files));
    assert code !in m ==> MergedMask(b, files, code) == 0;
  }

  /** Two different files have the code. */
  predicate InSomeTwo(files: seq<seq<string>>, code: string) {
    exists i, j | 0 <= i < j < |files| :: code in files[i] && code in files[j]
  }

  /** For up to 64 files, two distinct files suffice, and are needed. */
  lemma TwoFilesMeansTwoIndices(files: seq<seq<string>>, code: string)
    requires |files| <= 64
    ensures InTwoFiles(files, code) <==> InSomeTwo(files, code)
  {
    var fs := FilesWith(files, code);
    if |fs| >= 2 {
      var i :| i in fs;
      var j := TwoElements(fs, i);
      assert i < j || j < i;
    }
    if i, j :| 0 <= i < j < |files| && code in files[i] && code in files[j] {
      assert {i, j} <= fs;
      SubsetSize({i, j}, fs);
    }
  }

  function FirstFiles(files: seq<seq<string>>): seq<seq<string>> {
    if |files| <= 64 then files else files[..64]
  }

  /** Past the 64th file the bits are lost: only the files before it decide, however many there are. */
  lemma LostBit<F(!new)>(b: Bloom<F>, files: seq<seq<string>>, code: string)
    requires NoFalseNegatives(b)
    ensures code in ValidCodes(b, files) <==> 8 <= |code| <= 10 && InSomeTwo(FirstFiles(files), code)
  {
    Exactness(b, files, code);
    assert FilesWith(files, code) == FilesWith(FirstFiles(files), code);
    TwoFilesMeansTwoIndices(FirstFiles(files), code);
  }

  /** The codes of n files are those that two of the files share. */
  ghost predicate ExactFor<F(!new)>(b: Bloom<F>, n: nat) {
    forall files, code | |files| == n ::
      code in ValidCodes(b, files) <==> 8 <= |code| <= 10 && InSomeTwo(files, code)
  }

  /** The documented meaning holds for every list of n files if and only if n is at most 64. */
  lemma ExactUpTo64<F(!new)>(b: Bloom<F>, n: nat)
    requires NoFalseNegatives(b)
    ensures ExactFor(b, n) <==> n <= 64
  {
    if n <= 64 {
      forall files, code | |files| == n
        ensures code in ValidCodes(b, files) <==> 8 <= |code| <= 10 && InSomeTwo(files, code)
      {
        LostBit(b, files, code);
      }
    } else {
      var code := "ABCDEFGH";
      var files := SharedByEnds(code, n);
      LostBit(b, files, code);
      assert InSomeTwo(files, code) by { assert code in files[0] && code in files[n - 1]; }
      assert code !in ValidCodes(b, files);
    }
  }

  function SharedByEnds(code: string, n: nat): (files: seq<seq<string>>)
    ensures |files| == n && forall i | 0 <= i < n :: code in files[i] <==> i == 0 || i == n - 1
  {
    seq(n, i => if i == 0 || i == n - 1 then [code] else [])
  }

  // ---------------------------------------------------------------- filters without false positives

  /** A filter that remembers everything it was given. */
  function SetFilter(): Bloom<set<string>> {
    Bloom({}, (f, s) => f + {s}, (f, s) => s in f)
  }

  /** The first pass adds exactly the lines of 8 to 10 characters. */
  lemma {:induction false} SetFilterSpec(lines: seq<string>, code: string)
    ensures code in FilterOf(SetFilter(), lines) <==> code in lines && 8 <= |code| <= 10
    decreases |lines|
  {
    if lines != [] {
      var front, last := lines[..|lines| - 1], lines[|lines| - 1];
      assert lines == front + [last];
      SetFilterSpec(front, code);
      var b, f := SetFilter(), FilterOf(SetFilter(), front);
      assert FilterOf(b, lines) == AddEligible(b)(f, last) == if Eligible(last) then b.add(f, last) else f;
      assert b.add(f, last) == f + {last};
    }
  }

  /** With such filters the candidates of a file are exactly what it shares with another file. */
  lemma CandidatesExactly(files: seq<seq<string>>, idx: nat, code: string)
    requires idx < |files|
    ensures code in Candidates(SetFilter(), FiltersOf(SetFilter(), files), idx, files[idx])
       <==> code in files[idx] && 8 <= |code| <= 10
            && exists j | 0 <= j < |files| :: j != idx && code in files[j]
  {
    var filters := FiltersOf(SetFilter(), files);
    CandidatesSpec(SetFilter(), filters, idx, files[idx], code);
    forall j | 0 <= j < |files| ensures SetFilter().test(filters[j], code) <==> code in files[j] && Eligible(code) {
      SetFilterSpec(files[j], code);
    }
  }

  // ---------------------------------------------------------------- a filter that honours the contract

  /** A bit array with `count` hash functions into `size` bits. */
  function HashBits(size: nat, count: nat, hash: (string, nat) -> nat, s: string): set<nat>
    requires size > 0
  {
    set j: nat | j < count :: hash(s, j) % size
  }

  function SetBits(bits: seq<bool>, ps: set<nat>): seq<bool> {
    seq(|bits|, i requires 0 <= i < |bits| => bits[i] || i in ps)
  }

  function BitArray(size: nat, count: nat, hash: (string, nat) -> nat): Bloom<seq<bool>>
    requires size > 0
  {
    Bloom(
      seq(size, i => false),
      (bits, s) => SetBits(bits, HashBits(size, count, hash, s)),
      (bits: seq<bool>, s: string) => forall p | p in HashBits(size, count, hash, s) :: p < |bits| ==> bits[p])
  }

  /** The contract is satisfied by the usual bit array, for any size and any hash functions. */
  lemma BitArrayHonoursContract(size: nat, count: nat, hash: (string, nat) -> nat)
    requires size > 0
    ensures NoFalseNegatives(BitArray(size, count, hash))
  {
  }
}
