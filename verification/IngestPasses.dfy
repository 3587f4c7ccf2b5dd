/**
 The loops of the ingestion, worker by worker, writing their results into the shared slots.
 Module IngestConcurrent shows that interleaving the workers changes nothing.
 */
module IngestPasses {
  import opened Common
  import opened Bits
  import opened Ingest

  /** A file as the scanner yields it: some lines, then the end of the file or an error. */
  datatype File = File(lines: seq<string>, broken: bool)

  function Lines(files: seq<File>): seq<seq<string>> {
    seq(|files|, i requires 0 <= i < |files| => files[i].lines)
  }

  predicate Intact(files: seq<File>) {
    forall f | f in files :: !f.broken
  }

  method BuildFilterForFile<F>(b: Bloom<F>, idx: nat, file: File, filters: array<Option<F>>) returns (failed: bool)
    requires idx < filters.Length
    modifies filters
    ensures failed == file.broken
    ensures filters[..] == if failed then old(filters[..]) else old(filters[..])[idx := Some(FilterOf(b, file.lines))]
  {
    var filter := b.empty;
    for k := 0 to |file.lines|
      invariant filter == FilterOf(b, file.lines[..k])
      invariant filters[..] == old(filters[..])
    {
      FoldNext(AddEligible(b), b.empty, file.lines, k);
      var code := file.lines[k];
      assert AddEligible(b)(filter, code) == if Eligible(code) then b.add(filter, code) else filter;
      if |code| >= MIN_CODE_LEN && |code| <= MAX_CODE_LEN {
        filter := b.add(filter, code);
      }
    }
    assert file.lines[..|file.lines|] == file.lines;
    if file.broken {
      return true;
    }
    filters[idx] := Some(filter);
    failed := false;
  }

  method BuildBloomFilters<F>(b: Bloom<F>, files: seq<File>) returns (r: Result<seq<F>, nat>)
    ensures r.Ok? <==> Intact(files)
    ensures r.Ok? ==> r.value == FiltersOf(b, Lines(files))
    ensures r.Err? ==> r.error < |files| && files[r.error].broken
  {
    var filters := new Option<F>[|files|](_ => None);
    var failure: Option<nat> := None;
    for i := 0 to |files|
      invariant failure.None? <==> Intact(files[..i])
      invariant failure.Some? ==> failure.value < i && files[failure.value].broken
      invariant forall j | 0 <= j < i :: !files[j].broken ==> filters[j] == Some(FilterOf(b, files[j].lines))
    {
      ghost var before := filters[..];
      var failed := BuildFilterForFile(b, i, files[i], filters);
      assert forall j | 0 <= j < |files| && j != i :: filters[..][j] == before[j];
      assert files[..i + 1] == files[..i] + [files[i]];
      if failed && failure.None? {
        failure := Some(i);
      }
    }
    assert files[..|files|] == files;
    if failure.Some? {
      return Err(failure.value);
    }
    assert forall j | 0 <= j < |files| :: !files[j].broken;
    var built := seq(|files|, i requires 0 <= i < |files| && filters[i].Some? reads filters => filters[i].value);
    assert built == FiltersOf(b, Lines(files));
    r := Ok(built);
  }

  /** Does any other file's filter claim the code? */
  method TestOthers<F>(b: Bloom<F>, filters: seq<F>, idx: nat, code: string) returns (hit: bool)
    ensures hit == Hits(b, filters, idx, code)
  {
    hit := false;
    for j := 0 to |filters|
      invariant !hit
      invariant forall k | 0 <= k < j :: k == idx || !b.test(filters[k], code)
    {
      if j != idx {
        if b.test(filters[j], code) {
          hit := true;
          break;
        }
      }
    }
  }

  method FindCandidatesInFile<F>(b: Bloom<F>, idx: nat, file: File, filters: seq<F>,
                                 results: array<Option<map<string, nat>>>) returns (failed: bool)
    requires idx < results.Length
    modifies results
    ensures failed == file.broken
    ensures results[..] == if failed then old(results[..])
                           else old(results[..])[idx := Some(Candidates(b, filters, idx, file.lines))]
  {
    var candidates: map<string, nat> := map[];
    var fileBit := FileBit(idx);
    for k := 0 to |file.lines|
      invariant candidates == Candidates(b, filters, idx, file.lines[..k])
      invariant results[..] == old(results[..])
    {
      FoldNext(Mark(b, filters, idx), map[], file.lines, k);
      var code := file.lines[k];
      if |code| < MIN_CODE_LEN || |code| > MAX_CODE_LEN {
        continue;
      }
      var hit := TestOthers(b, filters, idx, code);
      if hit {
        candidates := candidates[code := Bitwise(Or, Mask(candidates, code), fileBit)];
      }
    }
    assert file.lines[..|file.lines|] == file.lines;
    if file.broken {
      return true;
    }
    results[idx] := Some(candidates);
    failed := false;
  }

  /** `merged[code] |= mask` for every entry of one result, in any order. */
  method MergeOne(merged0: map<string, nat>, candidates: map<string, nat>) returns (merged: map<string, nat>)
    ensures merged == MergeInto(merged0, candidates)
  {
    merged := merged0;
    var todo := candidates.Keys;
    while todo != {}
      invariant todo <= candidates.Keys
      invariant merged.Keys == merged0.Keys + (candidates.Keys - todo)
      invariant forall code | code in merged ::
                  merged[code] == if code in candidates && code !in todo
                                  then Bitwise(Or, Mask(merged0, code), candidates[code]) else merged0[code]
    {
      var code :| code in todo;
      merged := merged[code := Bitwise(Or, Mask(merged, code), candidates[code])];
      todo := todo - {code};
    }
    forall code | code in merged && code !in candidates
      ensures Bitwise(Or, Mask(merged0, code), Mask(candidates, code)) == merged0[code]
    {
      OrZero(merged0[code]);
    }
  }

  lemma OrZero(x: nat)
    ensures Bitwise(Or, x, 0) == x
  {
    forall i: nat ensures Bit(Bitwise(Or, x, 0), i) == Bit(x, i) { BitwiseBit(Or, x, 0, i); ZeroHasNoBits(i); }
    SameBits(Bitwise(Or, x, 0), x);
  }

  predicate NoDuplicates(codes: seq<string>) {
    forall i, j | 0 <= i < j < |codes| :: codes[i] != codes[j]
  }

  /** The codes with two bits or more, collected in any order. */
  method KeepShared(merged: map<string, nat>) returns (valid: seq<string>)
    ensures NoDuplicates(valid)
    ensures forall code :: code in valid <==> code in merged && OnesCount(merged[code]) >= 2
  {
    valid := [];
    var todo := merged.Keys;
    while todo != {}
      invariant todo <= merged.Keys && NoDuplicates(valid)
      invariant forall code :: code in valid <==> code in merged && code !in todo && OnesCount(merged[code]) >= 2
    {
      var code :| code in todo;
      if OnesCount(merged[code]) >= 2 {
        valid := valid + [code];
      }
      todo := todo - {code};
    }
  }

  method FindAllCandidates<F>(b: Bloom<F>, files: seq<File>, filters: seq<F>)
    returns (r: Result<seq<map<string, nat>>, nat>)
    ensures r.Ok? <==> Intact(files)
    ensures r.Ok? ==> r.value == AllCandidates(b, filters, Lines(files))
    ensures r.Err? ==> r.error < |files| && files[r.error].broken
  {
    var results := new Option<map<string, nat>>[|files|](_ => None);
    var failure: Option<nat> := None;
    for i := 0 to |files|
      invariant failure.None? <==> Intact(files[..i])
      invariant failure.Some? ==> failure.value < i && files[failure.value].broken
      invariant forall j | 0 <= j < i ::
                  !files[j].broken ==> results[j] == Some(Candidates(b, filters, j, files[j].lines))
    {
      ghost var before := results[..];
      var failed := FindCandidatesInFile(b, i, files[i], filters, results);
      assert forall j | 0 <= j < |files| && j != i :: results[..][j] == before[j];
      assert files[..i + 1] == files[..i] + [files[i]];
      if failed && failure.None? {
        failure := Some(i);
      }
    }
    assert files[..|files|] == files;
    if failure.Some? {
      return Err(failure.value);
    }
    assert forall j | 0 <= j < |files| :: !files[j].broken;
    var all := seq(|files|, i requires 0 <= i < |files| && results[i].Some? reads results => results[i].value);
    r := Ok(all);
  }

  /** OR the masks of all files together. */
  method MergeAll(all: seq<map<string, nat>>) returns (merged: map<string, nat>)
    ensures merged == Merged(all)
  {
    merged := map[];
    for i := 0 to |all|
      invariant merged == Merged(all[..i])
    {
      assert all[..i + 1][..i] == all[..i];
      merged := MergeOne(merged, all[i]);
    }
    assert all[..|all|] == all;
  }

  method FindValidCodes<F>(b: Bloom<F>, files: seq<File>, filters: seq<F>) returns (r: Result<seq<string>, nat>)
    ensures r.Ok? <==> Intact(files)
    ensures r.Ok? ==> NoDuplicates(r.value)
                      && forall code :: code in r.value <==> code in Valid(AllCandidates(b, filters, Lines(files)))
    ensures r.Err? ==> r.error < |files| && files[r.error].broken
  {
    var results := FindAllCandidates(b, files, filters);
    if results.Err? {
      return Err(results.error);
    }
    var merged := MergeAll(results.value);
    var valid := KeepShared(merged);
    r := Ok(valid);
  }

  /** Both passes: exact for any filters that honour their contract, and no codes at all after a failure. */
  method IngestAll<F(!new)>(b: Bloom<F>, files: seq<File>) returns (r: Result<seq<string>, nat>)
    requires NoFalseNegatives(b)
    ensures r.Ok? <==> Intact(files)
    ensures r.Ok? ==> NoDuplicates(r.value)
    ensures r.Ok? ==> forall code :: code in r.value <==> 8 <= |code| <= 10 && InSomeTwo(FirstFiles(Lines(files)), code)
  {
    var filters := BuildBloomFilters(b, files);
    if filters.Err? {
      return Err(filters.error);
    }
    r := FindValidCodes(b, files, filters.value);
    forall code
      ensures code in ValidCodes(b, Lines(files)) <==> 8 <= |code| <= 10 && InSomeTwo(FirstFiles(Lines(files)), code)
    {
      LostBit(b, Lines(files), code);
    }
  }
}
