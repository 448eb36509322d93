/** Choosing the files of a compaction (db/version_set.cc: GetOverlappingInputs, AddBoundaryInputs, SetupOtherInputs). */
module CompactionInputs {
  import opened InternalKeys
  import opened VersionSearch

  // ----- GetOverlappingInputs -----

  function MeetingUpTo(fs: seq<File>, n: nat, begin: Option<UserKey>, end: Option<UserKey>): seq<File>
    requires n <= |fs|
  {
    if n == 0 then []
    else MeetingUpTo(fs, n - 1, begin, end) + if Meets(fs[n - 1], begin, end) then [fs[n - 1]] else []
  }

  function MeetingFiles(fs: seq<File>, begin: Option<UserKey>, end: Option<UserKey>): seq<File> {
    MeetingUpTo(fs, |fs|, begin, end)
  }

  lemma {:induction false} MeetingUpToMembers(fs: seq<File>, n: nat, begin: Option<UserKey>, end: Option<UserKey>)
    requires n <= |fs|
    ensures forall f :: f in MeetingUpTo(fs, n, begin, end) <==> exists k :: 0 <= k < n && fs[k] == f && Meets(f, begin, end)
  {
    if n > 0 {
      MeetingUpToMembers(fs, n - 1, begin, end);
    }
  }

  /** MeetingFiles keeps exactly the files meeting the range. */
  lemma MeetingMembers(fs: seq<File>, begin: Option<UserKey>, end: Option<UserKey>)
    ensures forall f :: f in MeetingFiles(fs, begin, end) <==> f in fs && Meets(f, begin, end)
  {
    MeetingUpToMembers(fs, |fs|, begin, end);
  }

  /** (lo, hi) is at least as wide as (begin, end), and open on the same sides. */
  predicate Wider(lo: Option<UserKey>, hi: Option<UserKey>, begin: Option<UserKey>, end: Option<UserKey>) {
    && (lo.Some? <==> begin.Some?) && (hi.Some? <==> end.Some?)
    && (lo.Some? ==> lo.value <= begin.value) && (hi.Some? ==> hi.value >= end.value)
  }

  predicate Within(f: File, lo: Option<UserKey>, hi: Option<UserKey>) {
    && (lo.Some? ==> lo.value <= f.smallest.user)
    && (hi.Some? ==> f.largest.user <= hi.value)
  }

  /** No file straddles a closed end of the range. */
  ghost predicate ClosedRange(fs: seq<File>, lo: Option<UserKey>, hi: Option<UserKey>) {
    forall f :: f in fs && Meets(f, lo, hi) ==> Within(f, lo, hi)
  }

  ghost predicate ClosedUpTo(fs: seq<File>, n: nat, lo: Option<UserKey>, hi: Option<UserKey>)
    requires n <= |fs|
  {
    forall k :: 0 <= k < n && Meets(fs[k], lo, hi) ==> Within(fs[k], lo, hi)
  }

  /** The least closed range containing the request. */
  ghost predicate LeastClosedRange(fs: seq<File>, begin: Option<UserKey>, end: Option<UserKey>,
                                   lo: Option<UserKey>, hi: Option<UserKey>) {
    && Wider(lo, hi, begin, end) && ClosedRange(fs, lo, hi)
    && forall b, e :: Wider(b, e, begin, end) && ClosedRange(fs, b, e) ==> Wider(b, e, lo, hi)
  }

  /** Every closed range around the request is at least as wide as (lo, hi). */
  ghost predicate Forced(fs: seq<File>, begin: Option<UserKey>, end: Option<UserKey>,
                         lo: Option<UserKey>, hi: Option<UserKey>) {
    && Wider(lo, hi, begin, end)
    && forall b, e :: Wider(b, e, begin, end) && ClosedRange(fs, b, e) ==> Wider(b, e, lo, hi)
  }

  lemma ForcedStep(fs: seq<File>, begin: Option<UserKey>, end: Option<UserKey>,
                   lo: Option<UserKey>, hi: Option<UserKey>, f: File)
    requires Forced(fs, begin, end, lo, hi)
    requires f in fs && Meets(f, lo, hi)
    ensures lo.Some? && f.smallest.user < lo.value ==> Forced(fs, begin, end, Some(f.smallest.user), hi)
    ensures hi.Some? && f.largest.user > hi.value ==> Forced(fs, begin, end, lo, Some(f.largest.user))
  {
    forall b, e | Wider(b, e, begin, end) && ClosedRange(fs, b, e) ensures Within(f, b, e) {
      assert Meets(f, b, e);
    }
  }

  /** The files reaching past each closed end; every restart lets go of one of them. */
  ghost function Straddlers(fs: seq<File>, lo: Option<UserKey>, hi: Option<UserKey>): nat {
    if fs == [] then 0
    else
      Straddlers(fs[1..], lo, hi)
      + (if lo.Some? && fs[0].smallest.user < lo.value then 1 else 0)
      + (if hi.Some? && fs[0].largest.user > hi.value then 1 else 0)
  }

  lemma {:induction false} FewerStraddlers(fs: seq<File>, lo: Option<UserKey>, hi: Option<UserKey>,
                                           lo': Option<UserKey>, hi': Option<UserKey>)
    requires Wider(lo', hi', lo, hi)
    ensures Straddlers(fs, lo', hi') <= Straddlers(fs, lo, hi)
    ensures forall f :: f in fs && lo.Some? && lo'.value <= f.smallest.user < lo.value ==> Straddlers(fs, lo', hi') < Straddlers(fs, lo, hi)
    ensures forall f :: f in fs && hi.Some? && hi.value < f.largest.user <= hi'.value ==> Straddlers(fs, lo', hi') < Straddlers(fs, lo, hi)
  {
    if fs != [] {
      FewerStraddlers(fs[1..], lo, hi, lo', hi');
    }
  }

  /** Above level 0 this is a filter; on level 0 the scan restarts whenever a chosen file widens the
      range, and ends with exactly the files meeting the least closed range.  That range is lo to hi. */
  method GetOverlappingInputs(files: seq<File>, level: nat, begin: Option<UserKey>, end: Option<UserKey>)
    returns (inputs: seq<File>, lo: Option<UserKey>, hi: Option<UserKey>)
    ensures inputs == MeetingFiles(files, lo, hi)
    ensures level > 0 ==> lo == begin && hi == end
    ensures level == 0 ==> LeastClosedRange(files, begin, end, lo, hi)
  {
    inputs := [];
    var userBegin, userEnd := begin, end;
    var i := 0;
    while i < |files|
      invariant 0 <= i <= |files|
      invariant inputs == MeetingUpTo(files, i, userBegin, userEnd)
      invariant level > 0 ==> userBegin == begin && userEnd == end
      invariant level == 0 ==> ClosedUpTo(files, i, userBegin, userEnd)
      invariant Forced(files, begin, end, userBegin, userEnd)
      decreases Straddlers(files, userBegin, userEnd), |files| - i
    {
      var f := files[i];
      i := i + 1;
      if !AfterFile(userBegin, f) && !BeforeFile(userEnd, f) {
        inputs := inputs + [f];
        if level == 0 {
          ForcedStep(files, begin, end, userBegin, userEnd, f);
          if userBegin.Some? && f.smallest.user < userBegin.value {
            FewerStraddlers(files, userBegin, userEnd, Some(f.smallest.user), userEnd);
            userBegin, inputs, i := Some(f.smallest.user), [], 0;
          } else if userEnd.Some? && f.largest.user > userEnd.value {
            FewerStraddlers(files, userBegin, userEnd, userBegin, Some(f.largest.user));
            userEnd, inputs, i := Some(f.largest.user), [], 0;
          }
        }
      }
    }
    lo, hi := userBegin, userEnd;
  }

  // ----- Ranges and boundary files -----

  ghost predicate LargestOf(fs: seq<File>, k: InternalKey) {
    && (exists f :: f in fs && f.largest == k)
    && forall f :: f in fs ==> !Less(k, f.largest)
  }

  ghost predicate SmallestOf(fs: seq<File>, k: InternalKey) {
    && (exists f :: f in fs && f.smallest == k)
    && forall f :: f in fs ==> !Less(f.smallest, k)
  }

  /** The least internal-key range covering every input. */
  method GetRange(inputs: seq<File>) returns (smallest: InternalKey, largest: InternalKey)
    requires inputs != []
    ensures SmallestOf(inputs, smallest) && LargestOf(inputs, largest)
  {
    smallest, largest := inputs[0].smallest, inputs[0].largest;
    for i := 1 to |inputs|
      invariant SmallestOf(inputs[..i], smallest) && LargestOf(inputs[..i], largest)
    {
      var f := inputs[i];
      assert inputs[..i + 1] == inputs[..i] + [f];
      if Less(f.smallest, smallest) {
        smallest := f.smallest;
      }
      if Less(largest, f.largest) {
        largest := f.largest;
      }
      assert f in inputs[..i + 1];
    }
    assert inputs[..|inputs|] == inputs;
  }

  /** f starts after `key`, with the same user key. */
  predicate IsBoundary(f: File, key: InternalKey) {
    Less(key, f.smallest) && f.smallest.user == key.user
  }

  ghost predicate SmallestBoundary(fs: seq<File>, key: InternalKey, b: File) {
    && b in fs && IsBoundary(b, key)
    && forall f :: f in fs && IsBoundary(f, key) ==> !Less(f.smallest, b.smallest)
  }

  ghost predicate NoBoundary(fs: seq<File>, key: InternalKey) {
    forall f :: f in fs ==> !IsBoundary(f, key)
  }

  method FindSmallestBoundaryFile(levelFiles: seq<File>, key: InternalKey) returns (b: Option<File>)
    ensures b.Some? ==> SmallestBoundary(levelFiles, key, b.value)
    ensures b.None? ==> NoBoundary(levelFiles, key)
  {
    b := None;
    for i := 0 to |levelFiles|
      invariant b.Some? ==> SmallestBoundary(levelFiles[..i], key, b.value)
      invariant b.None? ==> NoBoundary(levelFiles[..i], key)
    {
      var f := levelFiles[i];
      assert levelFiles[..i + 1] == levelFiles[..i] + [f];
      if IsBoundary(f, key) && (b.None? || Less(f.smallest, b.value.smallest)) {
        b := Some(f);
      }
    }
    assert levelFiles[..|levelFiles|] == levelFiles;
  }

  lemma EarlierIsNoBoundary(fs: seq<File>, n: nat, j: nat)
    requires ValidFiles(fs) && Disjoint(fs) && n < j <= |fs|
    ensures !IsBoundary(fs[n], fs[j - 1].largest)
  {
    if n < j - 1 {
      SortedLevelUsers(fs, n, j - 1);
    }
    assert fs[n] in fs && fs[j - 1] in fs;
    SortedBounds(fs[n], fs[n].table[0]);
  }

  lemma LaterIsNotSmallest(fs: seq<File>, j: nat, n: nat)
    requires ValidFiles(fs) && Disjoint(fs) && 0 < j < n < |fs|
    ensures !SmallestBoundary(fs, fs[j - 1].largest, fs[n])
  {
    SortedLevelUsers(fs, j - 1, j);
    SortedLevelUsers(fs, j, n);
    assert fs[j] in fs;
  }

  /** On a sorted level the smallest boundary file of the j-th file's end is the next file. */
  lemma NextIsFirstBoundary(fs: seq<File>, j: nat, b: File)
    requires ValidFiles(fs) && Disjoint(fs)
    requires 0 < j <= |fs|
    requires SmallestBoundary(fs, fs[j - 1].largest, b)
    ensures j < |fs| && b == fs[j]
  {
    forall n | 0 <= n < j ensures !IsBoundary(fs[n], fs[j - 1].largest) {
      EarlierIsNoBoundary(fs, n, j);
    }
    forall n | j < n < |fs| ensures !SmallestBoundary(fs, fs[j - 1].largest, fs[n]) {
      LaterIsNotSmallest(fs, j, n);
    }
    var n :| 0 <= n < |fs| && fs[n] == b;
  }

  /** On level 0 the chosen files already fill a closed range, so no boundary file is left. */
  lemma ClosedHasNoBoundary(fs: seq<File>, lo: Option<UserKey>, hi: Option<UserKey>, key: InternalKey)
    requires ValidFiles(fs) && ClosedRange(fs, lo, hi)
    requires LargestOf(MeetingFiles(fs, lo, hi), key)
    ensures NoBoundary(fs, key)
  {
    MeetingMembers(fs, lo, hi);
    forall b | b in fs ensures !IsBoundary(b, key) {
      SortedBounds(b, b.table[0]);
    }
  }

  lemma SortedLevelUsers(fs: seq<File>, i: nat, j: nat)
    requires ValidFiles(fs) && Disjoint(fs)
    requires i < j < |fs|
    ensures fs[i].smallest.user <= fs[i].largest.user <= fs[j].smallest.user <= fs[j].largest.user
    ensures Before(fs[i].smallest, fs[j].smallest)
  {
    assert fs[i] in fs && fs[j] in fs;
    SortedBounds(fs[i], fs[i].table[0]);
  }

  // ----- SetupOtherInputs -----

  /** What PickCompaction and CompactRange hand over: a filled closed range of level 0, or a
      contiguous run of a sorted level. */
  ghost predicate Candidate(level: nat, fs: seq<File>, inputs: seq<File>) {
    && inputs != []
    && if level == 0 then exists lo, hi :: FillsRange(fs, lo, hi, inputs)
       else exists i, j :: IsRun(fs, i, j, inputs)
  }

  ghost predicate FillsRange(fs: seq<File>, lo: Option<UserKey>, hi: Option<UserKey>, inputs: seq<File>) {
    ClosedRange(fs, lo, hi) && inputs == MeetingFiles(fs, lo, hi)
  }

  ghost predicate IsRun(fs: seq<File>, i: int, j: int, inputs: seq<File>) {
    && 0 <= i <= j <= |fs| && |inputs| == j - i
    && forall k :: 0 <= k < |inputs| ==> inputs[k] == fs[i + k]
  }

  ghost predicate IsSealedRun(fs: seq<File>, i: int, j: int, inputs: seq<File>) {
    && IsRun(fs, i, j, inputs) && i < j
    && (j < |fs| ==> fs[j].smallest.user != fs[j - 1].largest.user)
  }

  /** A candidate with its boundary files: nothing older for the same user keys stays on the level. */
  ghost predicate Sealed(level: nat, fs: seq<File>, inputs: seq<File>) {
    && inputs != []
    && if level == 0 then exists lo, hi :: FillsRange(fs, lo, hi, inputs)
       else exists i, j :: IsSealedRun(fs, i, j, inputs)
  }

  /** in1 with the user-key range it was chosen by. */
  ghost predicate CoveringRange(parents: seq<File>, in0: seq<File>, in1: seq<File>, lo: InternalKey, hi: InternalKey) {
    SmallestOf(in0, lo) && LargestOf(in0, hi) && in1 == MeetingFiles(parents, Some(lo.user), Some(hi.user))
  }

  /** in1 is every file of the next level that meets the user-key range of in0. */
  ghost predicate Covering(parents: seq<File>, in0: seq<File>, in1: seq<File>) {
    exists lo, hi :: CoveringRange(parents, in0, in1, lo, hi)
  }

  function TotalFileSize(fs: seq<File>): nat {
    if fs == [] then 0 else fs[0].size + TotalFileSize(fs[1..])
  }

  /** The meeting files are those from index i up to index j. */
  ghost predicate MeetsExactly(fs: seq<File>, begin: Option<UserKey>, end: Option<UserKey>, i: nat, j: nat) {
    forall k :: 0 <= k < |fs| ==> (Meets(fs[k], begin, end) <==> i <= k < j)
  }

  lemma {:induction false} FilterIsRun(fs: seq<File>, begin: Option<UserKey>, end: Option<UserKey>, i: nat, j: nat, n: nat)
    requires i <= j <= |fs| && n <= |fs|
    requires MeetsExactly(fs, begin, end, i, j)
    ensures n <= i ==> MeetingUpTo(fs, n, begin, end) == []
    ensures i <= n ==> IsRun(fs, i, if n <= j then n else j, MeetingUpTo(fs, n, begin, end))
    decreases n
  {
    if n > 0 {
      FilterIsRun(fs, begin, end, i, j, n - 1);
    }
  }

  /** A sorted level's files that meet a range are a contiguous run. */
  lemma MeetingIsRun(fs: seq<File>, begin: Option<UserKey>, end: Option<UserKey>) returns (i: nat, j: nat)
    requires ValidFiles(fs) && Disjoint(fs)
    ensures IsRun(fs, i, j, MeetingFiles(fs, begin, end))
  {
    i := 0;
    while i < |fs| && AfterFile(begin, fs[i])
      invariant i <= |fs| && forall k :: 0 <= k < i ==> AfterFile(begin, fs[k])
    {
      i := i + 1;
    }
    j := i;
    while j < |fs| && !BeforeFile(end, fs[j])
      invariant i <= j <= |fs| && forall k :: i <= k < j ==> !BeforeFile(end, fs[k])
    {
      j := j + 1;
    }
    forall k | i < k < |fs| ensures !AfterFile(begin, fs[k]) {
      SortedLevelUsers(fs, i, k);
    }
    forall k | j < k < |fs| ensures BeforeFile(end, fs[k]) {
      SortedLevelUsers(fs, j, k);
    }
    assert MeetsExactly(fs, begin, end, i, j);
    FilterIsRun(fs, begin, end, i, j, |fs|);
  }

  /** Widening a range keeps the chosen files, and keeps them all if it keeps their number. */
  lemma {:induction false} WiderKeepsMeeting(fs: seq<File>, n: nat, b: Option<UserKey>, e: Option<UserKey>, b': Option<UserKey>, e': Option<UserKey>)
    requires n <= |fs| && Wider(b', e', b, e)
    ensures |MeetingUpTo(fs, n, b, e)| <= |MeetingUpTo(fs, n, b', e')|
    ensures |MeetingUpTo(fs, n, b, e)| == |MeetingUpTo(fs, n, b', e')| ==> MeetingUpTo(fs, n, b, e) == MeetingUpTo(fs, n, b', e')
  {
    if n > 0 {
      WiderKeepsMeeting(fs, n - 1, b, e, b', e');
    }
  }

  /** r is the run from i up to j, and key is where it ends. */
  ghost predicate RunTo(fs: seq<File>, i: int, j: int, r: seq<File>, key: InternalKey) {
    i < j && IsRun(fs, i, j, r) && key == fs[j - 1].largest
  }

  lemma RunEndsLargest(fs: seq<File>, i: nat, j: nat, r: seq<File>, key: InternalKey)
    requires ValidFiles(fs) && Disjoint(fs)
    requires i < j && IsRun(fs, i, j, r) && LargestOf(r, key)
    ensures RunTo(fs, i, j, r, key)
  {
    var f :| f in r && f.largest == key;
    var n :| 0 <= n < |r| && r[n] == f;
    assert r[j - 1 - i] in r;
    if n < j - 1 - i {
      DisjointLargest(fs, i + n, j - 1);
    }
  }

  lemma RunExtends(fs: seq<File>, i: nat, j: nat, r: seq<File>, key: InternalKey, b: File)
    requires ValidFiles(fs) && Disjoint(fs)
    requires RunTo(fs, i, j, r, key) && SmallestBoundary(fs, key, b)
    ensures j < |fs| && RunTo(fs, i, j + 1, r + [b], b.largest)
  {
    NextIsFirstBoundary(fs, j, b);
  }

  lemma RunIsSealed(fs: seq<File>, i: nat, j: nat, r: seq<File>, key: InternalKey)
    requires ValidFiles(fs) && Disjoint(fs)
    requires RunTo(fs, i, j, r, key) && NoBoundary(fs, key)
    ensures IsSealedRun(fs, i, j, r)
  {
    if j < |fs| {
      assert fs[j] in fs && !IsBoundary(fs[j], key);
    }
  }

  /** From index n on, each file starts with the user key the one before it ends with. */
  ghost predicate OnlyBoundaries(r: seq<File>, n: nat) {
    forall k {:trigger FollowsOn(r, k)} :: n <= k < |r| ==> FollowsOn(r, k)
  }

  ghost predicate FollowsOn(r: seq<File>, k: int) {
    0 < k < |r| && IsBoundary(r[k], r[k - 1].largest)
  }

  lemma OneMoreBoundary(r: seq<File>, n: nat, b: File)
    requires OnlyBoundaries(r, n) && r != [] && IsBoundary(b, r[|r| - 1].largest)
    ensures OnlyBoundaries(r + [b], n)
  {
    forall k | n <= k < |r + [b]| ensures FollowsOn(r + [b], k) {
      assert k < |r| ==> FollowsOn(r, k);
    }
  }

  /** The state of the boundary search: r has grown from the candidate, and ends at file j - 1 with key. */
  ghost predicate Searching(level: nat, fs: seq<File>, start: seq<File>, r: seq<File>, i: int, j: int, key: InternalKey) {
    && r != [] && start <= r && OnlyBoundaries(r, |start|) && j <= |fs|
    && if level == 0 then r == start && NoBoundary(fs, key) else RunTo(fs, i, j, r, key)
  }

  lemma SearchBegins(level: nat, fs: seq<File>, start: seq<File>, key: InternalKey) returns (i: nat, j: nat)
    requires ValidFiles(fs) && (level > 0 ==> Disjoint(fs))
    requires Candidate(level, fs, start) && LargestOf(start, key)
    ensures Searching(level, fs, start, start, i, j, key)
  {
    i, j := 0, 0;
    if level == 0 {
      var lo, hi :| FillsRange(fs, lo, hi, start);
      ClosedHasNoBoundary(fs, lo, hi, key);
    } else {
      i, j :| IsRun(fs, i, j, start);
      RunEndsLargest(fs, i, j, start, key);
    }
  }

  lemma SearchGoesOn(level: nat, fs: seq<File>, start: seq<File>, r: seq<File>, i: nat, j: nat, key: InternalKey, b: File)
    requires ValidFiles(fs) && (level > 0 ==> Disjoint(fs))
    requires Searching(level, fs, start, r, i, j, key) && SmallestBoundary(fs, key, b)
    ensures j < |fs| && Searching(level, fs, start, r + [b], i, j + 1, b.largest)
  {
    RunExtends(fs, i, j, r, key, b);
    OneMoreBoundary(r, |start|, b);
  }

  lemma SearchEnds(level: nat, fs: seq<File>, start: seq<File>, r: seq<File>, i: nat, j: nat, key: InternalKey)
    requires ValidFiles(fs) && (level > 0 ==> Disjoint(fs)) && Candidate(level, fs, start)
    requires Searching(level, fs, start, r, i, j, key) && NoBoundary(fs, key)
    ensures Sealed(level, fs, r)
  {
    if level > 0 {
      RunIsSealed(fs, i, j, r, key);
    }
  }

  /** AddBoundaryInputs turns a candidate into a sealed choice that begins with it: on a sorted level
      it walks forward while the next file starts with the user key the last one ends with. */
  method AddBoundaryInputs(level: nat, levelFiles: seq<File>, compactionFiles: seq<File>) returns (r: seq<File>)
    requires ValidFiles(levelFiles)
    requires level > 0 ==> Disjoint(levelFiles)
    requires Candidate(level, levelFiles, compactionFiles)
    ensures Sealed(level, levelFiles, r)
    ensures compactionFiles <= r && OnlyBoundaries(r, |compactionFiles|)
    ensures level == 0 ==> r == compactionFiles
  {
    r := compactionFiles;
    var _, largestKey := GetRange(compactionFiles);
    ghost var i, j := SearchBegins(level, levelFiles, compactionFiles, largestKey);
    var searching := true;
    while searching
      invariant Searching(level, levelFiles, compactionFiles, r, i, j, largestKey)
      invariant !searching ==> NoBoundary(levelFiles, largestKey)
      decreases searching, |levelFiles| - j
    {
      var b := FindSmallestBoundaryFile(levelFiles, largestKey);
      if b.Some? {
        SearchGoesOn(level, levelFiles, compactionFiles, r, i, j, largestKey, b.value);
        r, largestKey, j := r + [b.value], b.value.largest, j + 1;
      } else {
        searching := false;
      }
    }
    SearchEnds(level, levelFiles, compactionFiles, r, i, j, largestKey);
  }

  /** The files of `level` that meet the range of a choice include the choice. */
  lemma MeetingContains(fs: seq<File>, inputs: seq<File>, all: seq<File>, lo: InternalKey, hi: InternalKey)
    requires ValidFiles(fs)
    requires forall f :: f in inputs ==> f in fs && f in all
    requires SmallestOf(all, lo) && LargestOf(all, hi)
    ensures forall f :: f in inputs ==> f in MeetingFiles(fs, Some(lo.user), Some(hi.user))
  {
    MeetingMembers(fs, Some(lo.user), Some(hi.user));
    forall f | f in inputs ensures Meets(f, Some(lo.user), Some(hi.user)) {
      assert !Less(f.smallest, lo) && !Less(hi, f.largest);
      SortedBounds(f, f.table[0]);
    }
  }

  lemma SealedInLevel(level: nat, fs: seq<File>, inputs: seq<File>)
    requires Sealed(level, fs, inputs)
    ensures forall f :: f in inputs ==> f in fs
  {
    if level == 0 {
      var lo, hi :| FillsRange(fs, lo, hi, inputs);
      MeetingMembers(fs, lo, hi);
    }
  }

  /** A sealed choice that takes in everything on `level` that meets the range of all inputs. */
  ghost predicate TakesAll(level: nat, files: seq<File>, in0: seq<File>, in1: seq<File>, expanded0: seq<File>) {
    && Sealed(level, files, expanded0)
    && exists lo, hi :: SmallestOf(in0 + in1, lo) && LargestOf(in0 + in1, hi) && HasAllMeeting(files, lo, hi, expanded0)
  }

  ghost predicate HasAllMeeting(files: seq<File>, lo: InternalKey, hi: InternalKey, chosen: seq<File>) {
    forall f :: f in files && Meets(f, Some(lo.user), Some(hi.user)) ==> f in chosen
  }

  /** The grown choice of `level`, before it is known whether it may be used. */
  method Expand(level: nat, files: seq<File>, in0: seq<File>, in1: seq<File>) returns (expanded0: seq<File>)
    requires ValidFiles(files)
    requires level > 0 ==> Disjoint(files)
    requires Sealed(level, files, in0)
    ensures TakesAll(level, files, in0, in1, expanded0)
    ensures forall f :: f in in0 ==> f in expanded0
  {
    var allStart, allLimit := GetRange(in0 + in1);
    var lo, hi;
    expanded0, lo, hi := GetOverlappingInputs(files, level, Some(allStart.user), Some(allLimit.user));
    SealedInLevel(level, files, in0);
    MeetingContains(files, in0, in0 + in1, allStart, allLimit);
    MeetingMembers(files, lo, hi);
    assert forall f :: f in in0 ==> Meets(f, lo, hi);
    assert in0[0] in in0;
    if level == 0 {
      assert FillsRange(files, lo, hi, expanded0);
    } else {
      ghost var i, j := MeetingIsRun(files, lo, hi);
    }
    assert HasAllMeeting(files, allStart, allLimit, expanded0);
    expanded0 := AddBoundaryInputs(level, files, expanded0);
    assert HasAllMeeting(files, allStart, allLimit, expanded0);
  }

  lemma LargerChoiceWiderRange(in0: seq<File>, in0': seq<File>, lo: InternalKey, hi: InternalKey, lo': InternalKey, hi': InternalKey)
    requires forall f :: f in in0 ==> f in in0'
    requires SmallestOf(in0, lo) && LargestOf(in0, hi) && SmallestOf(in0', lo') && LargestOf(in0', hi')
    ensures lo'.user <= lo.user && hi.user <= hi'.user
  {
  }

  /** The files a choice meets on the next level depend on the choice alone. */
  lemma OneCovering(parents: seq<File>, in0: seq<File>, in1: seq<File>, lo: InternalKey, hi: InternalKey)
    requires SmallestOf(in0, lo) && LargestOf(in0, hi)
    ensures Covering(parents, in0, in1) <==> in1 == MeetingFiles(parents, Some(lo.user), Some(hi.user))
  {
    if Covering(parents, in0, in1) {
      var lo', hi' :| CoveringRange(parents, in0, in1, lo', hi');
      LargerChoiceWiderRange(in0, in0, lo, hi, lo', hi');
      LargerChoiceWiderRange(in0, in0, lo', hi', lo, hi);
    } else {
      assert !CoveringRange(parents, in0, in1, lo, hi);
    }
  }

  /** A grown choice is used when it is larger, small enough, and leaves the next level's inputs as
      they are. */
  ghost predicate MayGrow(parents: seq<File>, start0: seq<File>, in1: seq<File>, grown: seq<File>, limit: nat) {
    in1 != [] && |grown| > |start0| && TotalFileSize(in1) + TotalFileSize(grown) < limit && Covering(parents, grown, in1)
  }

  /** The inputs of a compaction of `level` into level + 1: the candidate with its boundary files, or
      a grown choice just when it may be used.  The next compaction of the level starts past the
      pointer. */
  method SetupOtherInputs(level: nat, files: seq<File>, parents: seq<File>, candidate: seq<File>, limit: nat)
    returns (in0: seq<File>, in1: seq<File>, pointer: InternalKey, ghost start0: seq<File>, grown: seq<File>)
    requires ValidFiles(files)
    requires level > 0 ==> Disjoint(files)
    requires Candidate(level, files, candidate)
    ensures LargestOf(in0, pointer)
    ensures candidate <= start0 && OnlyBoundaries(start0, |candidate|) && Sealed(level, files, start0) && Covering(parents, start0, in1)
    ensures Sealed(level, files, in0) && Covering(parents, in0, in1)
    ensures in1 != [] ==> TakesAll(level, files, start0, in1, grown)
    ensures forall f :: f in start0 ==> f in grown
    ensures in0 == if MayGrow(parents, start0, in1, grown, limit) then grown else start0
  {
    in0 := AddBoundaryInputs(level, files, candidate);
    start0, grown := in0, in0;
    var smallest, largest := GetRange(in0);
    var lo, hi;
    in1, lo, hi := GetOverlappingInputs(parents, level + 1, Some(smallest.user), Some(largest.user));
    assert CoveringRange(parents, in0, in1, smallest, largest);
    if in1 != [] {
      grown := Expand(level, files, in0, in1);
      var take := MayUse(level, parents, in0, in1, grown, limit, smallest, largest);
      if take {
        in0 := grown;
        smallest, largest := GetRange(in0);
      }
    }
    pointer := largest;
  }

  method MayUse(level: nat, parents: seq<File>, in0: seq<File>, in1: seq<File>, expanded0: seq<File>, limit: nat,
                smallest: InternalKey, largest: InternalKey) returns (take: bool)
    requires CoveringRange(parents, in0, in1, smallest, largest) && in1 != []
    requires expanded0 != [] && forall f :: f in in0 ==> f in expanded0
    ensures take <==> MayGrow(parents, in0, in1, expanded0, limit)
  {
    take := false;
    if |expanded0| > |in0| && TotalFileSize(in1) + TotalFileSize(expanded0) < limit {
      var newStart, newLimit := GetRange(expanded0);
      var expanded1, _, _ := GetOverlappingInputs(parents, level + 1, Some(newStart.user), Some(newLimit.user));
      OneCovering(parents, expanded0, in1, newStart, newLimit);
      LargerChoiceWiderRange(in0, expanded0, smallest, largest, newStart, newLimit);
      WiderKeepsMeeting(parents, |parents|, Some(smallest.user), Some(largest.user), Some(newStart.user), Some(newLimit.user));
      take := |expanded1| == |in1|;
    }
  }

  // ----- Where a compaction starts -----

  /** files[i] is the first file that reaches past the compaction pointer; without a pointer, or
      past the last file, it is the first file of the level. */
  ghost predicate StartsAfter(files: seq<File>, pointer: Option<InternalKey>, i: nat) {
    && i < |files|
    && (pointer == None ==> i == 0)
    && (pointer.Some? ==>
          && (forall j :: 0 <= j < i ==> !Less(pointer.value, files[j].largest))
          && (Less(pointer.value, files[i].largest) || (i == 0 && forall f :: f in files ==> !Less(pointer.value, f.largest))))
  }

  method FirstAfter(files: seq<File>, pointer: Option<InternalKey>) returns (i: nat)
    requires files != []
    ensures StartsAfter(files, pointer, i)
  {
    for k := 0 to |files|
      invariant pointer == None ==> k == 0
      invariant pointer.Some? ==> forall j :: 0 <= j < k ==> !Less(pointer.value, files[j].largest)
    {
      if pointer == None || Less(pointer.value, files[k].largest) {
        return k;
      }
    }
    i := 0;
  }

  /** The candidate that grows from one file: on level 0 everything it overlaps, directly or not. */
  method StartFrom(level: nat, files: seq<File>, i: nat) returns (candidate: seq<File>)
    requires ValidFiles(files) && i < |files|
    ensures Candidate(level, files, candidate) && files[i] in candidate
    ensures level > 0 ==> candidate == [files[i]]
  {
    candidate := [files[i]];
    if level == 0 {
      var smallest, largest := GetRange(candidate);
      var lo, hi;
      candidate, lo, hi := GetOverlappingInputs(files, 0, Some(smallest.user), Some(largest.user));
      MeetingMembers(files, lo, hi);
      assert files[i] in [files[i]] && ValidFile(files[i]) && Meets(files[i], lo, hi);
      assert FillsRange(files, lo, hi, candidate);
    } else {
      assert IsRun(files, i, i + 1, candidate);
    }
  }

  /** PickCompaction: the file that used up its seeks, if that is the reason, or else the next one
      after the pointer. */
  method PickCompaction(level: nat, files: seq<File>, pointer: Option<InternalKey>, fileToCompact: Option<nat>)
    returns (candidate: seq<File>, ghost i: nat)
    requires ValidFiles(files) && files != []
    requires fileToCompact.Some? ==> fileToCompact.value < |files|
    ensures Candidate(level, files, candidate) && i < |files| && files[i] in candidate
    ensures if fileToCompact.Some? then i == fileToCompact.value else StartsAfter(files, pointer, i)
    ensures level > 0 ==> candidate == [files[i]]
  {
    var start: nat;
    if fileToCompact.Some? {
      start := fileToCompact.value;
    } else {
      start := FirstAfter(files, pointer);
    }
    candidate := StartFrom(level, files, start);
    i := start;
  }

  lemma {:induction false} SizeAppend(fs: seq<File>, f: File)
    ensures TotalFileSize(fs + [f]) == TotalFileSize(fs) + f.size
  {
    if fs != [] {
      assert (fs + [f])[1..] == fs[1..] + [f];
      SizeAppend(fs[1..], f);
    }
  }

  /** The shortest prefix that reaches the limit, or all of the files. */
  method CutToSize(files: seq<File>, limit: nat) returns (r: seq<File>)
    requires files != []
    ensures r != [] && r <= files
    ensures r == files || TotalFileSize(r) >= limit
    ensures TotalFileSize(r[..|r| - 1]) < limit || |r| == 1
  {
    var total := 0;
    for i := 0 to |files|
      invariant total == TotalFileSize(files[..i])
      invariant i > 0 ==> total < limit
    {
      total := total + files[i].size;
      SizeAppend(files[..i], files[i]);
      assert files[..i] + [files[i]] == files[..i + 1];
      if total >= limit {
        assert files[..i + 1][..i] == files[..i];
        return files[..i + 1];
      }
    }
    assert files[..|files|] == files;
    r := files;
    SizeAppend(files[..|files| - 1], files[|files| - 1]);
    assert files[..|files| - 1] + [files[|files| - 1]] == files;
  }

  /** CompactRange: the files that meet the range, on level 0 closed under overlap, and above it cut
      where they reach the size limit. */
  method CompactRange(level: nat, files: seq<File>, begin: Option<UserKey>, end: Option<UserKey>, limit: nat)
    returns (candidate: seq<File>)
    requires ValidFiles(files)
    requires level > 0 ==> Disjoint(files)
    ensures candidate == [] <==> forall f :: f in files ==> !Meets(f, begin, end)
    ensures candidate != [] ==> Candidate(level, files, candidate)
    ensures level == 0 ==> forall f :: f in files && Meets(f, begin, end) ==> f in candidate
    ensures level > 0 ==> candidate <= MeetingFiles(files, begin, end)
    ensures level > 0 ==> candidate == MeetingFiles(files, begin, end) || TotalFileSize(candidate) >= limit
  {
    var lo, hi;
    candidate, lo, hi := GetOverlappingInputs(files, level, begin, end);
    MeetingMembers(files, lo, hi);
    NothingMeetsEither(files, level, begin, end, lo, hi);
    if candidate == [] {
      return;
    }
    if level > 0 {
      ghost var i, j := MeetingIsRun(files, begin, end);
      ghost var all := candidate;
      candidate := CutToSize(candidate, limit);
      assert forall k :: 0 <= k < |candidate| ==> candidate[k] == all[k];
      assert IsRun(files, i, i + |candidate|, candidate);
    } else {
      assert FillsRange(files, lo, hi, candidate);
    }
  }

  /** Nothing is chosen just when nothing meets the range asked for. */
  lemma NothingMeetsEither(files: seq<File>, level: nat, begin: Option<UserKey>, end: Option<UserKey>,
                           lo: Option<UserKey>, hi: Option<UserKey>)
    requires if level > 0 then lo == begin && hi == end else LeastClosedRange(files, begin, end, lo, hi)
    ensures MeetingFiles(files, lo, hi) == [] <==> forall f :: f in files ==> !Meets(f, begin, end)
  {
    MeetingMembers(files, lo, hi);
    var r := MeetingFiles(files, lo, hi);
    if r != [] {
      assert r[0] in r;
      if forall f :: f in files ==> !Meets(f, begin, end) {
        assert Wider(begin, end, begin, end) && ClosedRange(files, begin, end);
      }
    }
  }

  // ----- What the choice guarantees -----

  lemma ClosedRangeSeparates(fs: seq<File>, lo: Option<UserKey>, hi: Option<UserKey>, f: File, g: File)
    requires ValidFiles(fs) && ClosedRange(fs, lo, hi)
    requires f in fs && g in fs && Meets(f, lo, hi) && !Meets(g, lo, hi)
    ensures g.largest.user < f.smallest.user || f.largest.user < g.smallest.user
  {
  }

  lemma SealedRunSeparates(fs: seq<File>, i: nat, j: nat, inputs: seq<File>, m: nat, n: nat)
    requires ValidFiles(fs) && Disjoint(fs) && IsSealedRun(fs, i, j, inputs)
    requires i <= m < j && n < |fs| && !(i <= n < j)
    ensures fs[m].largest.user < fs[n].smallest.user || Before(fs[n].largest, fs[m].smallest)
  {
    if n >= j {
      SortedLevelUsers(fs, j - 1, j);
      if m < j - 1 {
        SortedLevelUsers(fs, m, j - 1);
      }
      if j < n {
        SortedLevelUsers(fs, j, n);
      }
    }
  }

  lemma SeparatedIsNewer(f: File, g: File)
    requires ValidFile(f) && ValidFile(g)
    requires g.largest.user < f.smallest.user || f.largest.user < g.smallest.user || Before(g.largest, f.smallest)
    ensures NewerThan(g.table, f.table)
  {
    forall x, y | x in g.table && y in f.table && x.key.user == y.key.user ensures x.key.sequence > y.key.sequence {
      SortedBounds(g, x);
      SortedBounds(f, y);
    }
  }

  lemma InRun(fs: seq<File>, i: nat, j: nat, inputs: seq<File>, n: nat)
    requires IsRun(fs, i, j, inputs) && i <= n < j
    ensures fs[n] in inputs
  {
    assert inputs[n - i] == fs[n];
  }

  lemma SealedRunLeavesNewer(fs: seq<File>, i: nat, j: nat, inputs: seq<File>, f: File, g: File)
    requires ValidFiles(fs) && Disjoint(fs) && IsSealedRun(fs, i, j, inputs)
    requires f in inputs && g in fs && g !in inputs
    ensures f in fs && (f.largest.user < g.smallest.user || Before(g.largest, f.smallest))
  {
    var n :| 0 <= n < |fs| && fs[n] == g;
    var m :| 0 <= m < |inputs| && inputs[m] == f;
    if i <= n < j {
      InRun(fs, i, j, inputs, n);
    }
    SealedRunSeparates(fs, i, j, inputs, i + m, n);
  }

  /** Whatever a sealed choice leaves on its level is newer than everything it takes. */
  lemma SealedLeavesNewer(level: nat, fs: seq<File>, inputs: seq<File>, f: File, g: File)
    requires ValidFiles(fs)
    requires level > 0 ==> Disjoint(fs)
    requires Sealed(level, fs, inputs)
    requires f in inputs && g in fs && g !in inputs
    ensures f in fs && NewerThan(g.table, f.table)
  {
    if level == 0 {
      var lo, hi :| FillsRange(fs, lo, hi, inputs);
      MeetingMembers(fs, lo, hi);
      ClosedRangeSeparates(fs, lo, hi, f, g);
    } else {
      var i, j :| IsSealedRun(fs, i, j, inputs);
      SealedRunLeavesNewer(fs, i, j, inputs, f, g);
    }
    SeparatedIsNewer(f, g);
  }
}
