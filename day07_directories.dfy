/** Day 7: no space left on device. A shell transcript of `cd` and `ls` is
    walked recursively; each directory's size is the sum of the files in it
    and below it, recorded under its path. */
module Directories {
  import opened Common

  // ---------------------------------------------------------------------
  // Classifying a line of the transcript

  /** What a line of the transcript is, in the order `process` tries its
      patterns. */
  datatype Command =
    | CdUp                     // `$ cd ..`
    | Cd(name: string)         // `$ cd ` and a run of lower-case letters
    | Ls                       // `$ ls` at a word boundary
    | DirEntry                 // `dir ...`
    | File(digits: string)     // digits, a space, a name
    | Blank                    // the empty line
    | Unknown                  // anything else

  predicate StartsWith(s: string, prefix: string)
  {
    |prefix| <= |s| && forall k :: 0 <= k < |prefix| ==> s[k] == prefix[k]
  }

  predicate IsLowerLetter(c: char) { 'a' <= c <= 'z' }

  /** A word character for `\b`: ASCII letters, digits and underscore. */
  predicate IsWordChar(c: char)
  {
    'a' <= c <= 'z' || 'A' <= c <= 'Z' || IsDigit(c) || c == '_'
  }

  /** The length of the longest run of characters satisfying the class,
      starting at `k` (the greedy `[a-z]*` and `\d*`). */
  function LowerRun(s: string, k: nat): (n: nat)
    requires k <= |s|
    ensures k + n <= |s|
    ensures forall j :: k <= j < k + n ==> IsLowerLetter(s[j])
    ensures k + n == |s| || !IsLowerLetter(s[k + n])
    decreases |s| - k
  {
    if k < |s| && IsLowerLetter(s[k]) then 1 + LowerRun(s, k + 1) else 0
  }

  function DigitRun(s: string, k: nat): (n: nat)
    requires k <= |s|
    ensures k + n <= |s|
    ensures forall j :: k <= j < k + n ==> IsDigit(s[j])
    ensures k + n == |s| || !IsDigit(s[k + n])
    decreases |s| - k
  {
    if k < |s| && IsDigit(s[k]) then 1 + DigitRun(s, k + 1) else 0
  }

  /** The patterns of `process`, tried in its order: `^\$ cd \.\.`,
      `^\$ cd ([a-z]*|/)` (the first alternative can match nothing, so
      `$ cd /` captures the empty name), `^\$ ls\b`, `^dir (.*)` and
      `^(\d*) (.*)`. */
  function Classify(line: string): (c: Command)
    ensures c == Blank <==> line == ""
    ensures c.Cd? ==> StartsWith(line, "$ cd ") && forall k :: 0 <= k < |c.name| ==> IsLowerLetter(c.name[k])
    ensures c.File? ==> AllDigits(c.digits)
  {
    if StartsWith(line, "$ cd ..") then CdUp
    else if StartsWith(line, "$ cd ") then Cd(line[5..5 + LowerRun(line, 5)])
    else if StartsWith(line, "$ ls") && (|line| == 4 || !IsWordChar(line[4])) then Ls
    else if StartsWith(line, "dir ") then DirEntry
    else if DigitRun(line, 0) < |line| && line[DigitRun(line, 0)] == ' ' then File(line[..DigitRun(line, 0)])
    else if |line| > 0 then Unknown
    else Blank
  }

  /** The transcript, line by line, as the commands `process` sees. */
  function Commands(lines: seq<string>): (cmds: seq<Command>)
    ensures |cmds| == |lines|
  {
    if lines == [] then [] else Commands(lines[..|lines| - 1]) + [Classify(lines[|lines| - 1])]
  }

  lemma {:induction false} CommandsAt(lines: seq<string>)
    ensures forall k :: 0 <= k < |lines| ==> Commands(lines)[k] == Classify(lines[k])
  {
    if lines != [] {
      CommandsAt(lines[..|lines| - 1]);
    }
  }

  /** The size a line adds to its directory directly: a file line's size,
      0 for every other line that does not panic. */
  function FileSize(c: Command): nat
  {
    match c
    case File(digits) => (match ParseUsize(digits) case Some(n) => n case None => 0)
    case _ => 0
  }

  // ---------------------------------------------------------------------
  // The recursive walk

  /** What `process` hands back: the directory's size, the position of the
      first line it did not consume, and the sizes of every path it
      recorded. */
  datatype Walk = Walk(size: nat, next: nat, sizes: map<string, nat>)

  /** The end of `process`: record the directory's own path, which must not
      be present yet. */
  function Finish(path: string, size: nat, sizes: map<string, nat>, next: nat): Outcome<Walk>
  {
    if path in sizes then Panics else Returns(Walk(size, next, sizes[path := size]))
  }

  /** `process(cmds[i..], path)`. */
  function Process(cmds: seq<Command>, i: nat, path: string): (r: Outcome<Walk>)
    requires i <= |cmds|
    ensures r.Returns? ==> i <= r.value.next <= |cmds|
    decreases |cmds| - i, 2
  {
    Scan(cmds, i, path, 0, map[])
  }

  /** The `while let` loop of `process` from line `i` on, with the size and
      the map gathered so far. */
  function Scan(cmds: seq<Command>, i: nat, path: string, size: nat, sizes: map<string, nat>): (r: Outcome<Walk>)
    requires i <= |cmds|
    ensures r.Returns? ==> i <= r.value.next <= |cmds|
    decreases |cmds| - i, 1
  {
    if i == |cmds| then Finish(path, size, sizes, i)
    else
      match cmds[i]
      case CdUp => Finish(path, size, sizes, i + 1)
      case Cd(name) => Resume(cmds, i, path, size, sizes, Process(cmds, i + 1, path + "/" + name))
      case File(digits) =>
        (match ParseUsize(digits)
         case None => Panics
         case Some(n) => Scan(cmds, i + 1, path, size + n, sizes))
      case Unknown => Panics
      case _ => Scan(cmds, i + 1, path, size, sizes)
  }

  /** The rest of the loop once the subdirectory entered at line `i` has
      handed back `sub`: its keys are merged (each must be new) and its size
      added. */
  function Resume(cmds: seq<Command>, i: nat, path: string, size: nat, sizes: map<string, nat>, sub: Outcome<Walk>): (r: Outcome<Walk>)
    requires i < |cmds|
    requires sub.Returns? ==> i < sub.value.next <= |cmds|
    ensures r.Returns? ==> i <= r.value.next <= |cmds|
    decreases |cmds| - i, 0
  {
    match sub
    case Panics => Panics
    case Returns(w) =>
      if w.sizes.Keys * sizes.Keys != {} then Panics
      else Scan(cmds, w.next, path, size + w.size, sizes + w.sizes)
  }

  /** A line that neither changes directory nor panics adds its file size
      and moves on. */
  lemma ScanSimpleStep(cmds: seq<Command>, i: nat, path: string, size: nat, sizes: map<string, nat>)
    requires i < |cmds|
    requires cmds[i].Ls? || cmds[i].DirEntry? || cmds[i].Blank? || (cmds[i].File? && ParseUsize(cmds[i].digits).Some?)
    ensures Scan(cmds, i, path, size, sizes) == Scan(cmds, i + 1, path, size + FileSize(cmds[i]), sizes)
  {
  }

  /** A line that enters a subdirectory whose walk returns `sub`, with no
      key recorded twice, continues after the subdirectory's lines. */
  lemma ScanCdStep(cmds: seq<Command>, i: nat, path: string, size: nat, sizes: map<string, nat>, sub: Walk)
    requires i < |cmds| && cmds[i].Cd?
    requires Process(cmds, i + 1, path + "/" + cmds[i].name) == Returns(sub)
    requires sub.sizes.Keys * sizes.Keys == {}
    ensures Scan(cmds, i, path, size, sizes) == Scan(cmds, sub.next, path, size + sub.size, sizes + sub.sizes)
  {
  }

  /** The other direction of `ScanCdStep`: a scan past a `cd` that returns
      had a subdirectory walk that returned with new keys only. */
  lemma ScanCdUnfold(cmds: seq<Command>, i: nat, path: string, size: nat, sizes: map<string, nat>) returns (sub: Walk)
    requires i < |cmds| && cmds[i].Cd? && Scan(cmds, i, path, size, sizes).Returns?
    ensures Process(cmds, i + 1, path + "/" + cmds[i].name) == Returns(sub)
    ensures sub.sizes.Keys * sizes.Keys == {}
    ensures Scan(cmds, i, path, size, sizes) == Scan(cmds, sub.next, path, size + sub.size, sizes + sub.sizes)
  {
    sub := Process(cmds, i + 1, path + "/" + cmds[i].name).value;
  }

  /** Inserting the entries of `sub` one by one into `sizes`, asserting that
      each key is new, as the `for_each` over the child's map does. */
  method MergeInto(sizes: map<string, nat>, sub: map<string, nat>) returns (r: Outcome<map<string, nat>>)
    ensures r == if sub.Keys * sizes.Keys != {} then Panics else Returns(sizes + sub)
  {
    var acc := sizes;
    var rest := sub.Keys;
    while rest != {}
      invariant rest <= sub.Keys
      invariant forall key :: key in sub && key !in rest ==> key !in sizes
      invariant forall key :: key in acc <==> key in sizes || (key in sub && key !in rest)
      invariant forall key :: key in acc ==> acc[key] == if key in sizes then sizes[key] else sub[key]
      decreases |rest|
    {
      var k :| k in rest;
      if k in acc {
        assert k in sub.Keys * sizes.Keys;
        return Panics;
      }
      acc := acc[k := sub[k]];
      rest := rest - {k};
    }
    MergedIsUnion(sizes, sub, acc);
    r := Returns(acc);
  }

  /** The map the merge loop ends with is the union of the two. */
  lemma MergedIsUnion(sizes: map<string, nat>, sub: map<string, nat>, acc: map<string, nat>)
    requires forall key :: key in sub ==> key !in sizes
    requires forall key :: key in acc <==> key in sizes || key in sub
    requires forall key :: key in acc ==> acc[key] == if key in sizes then sizes[key] else sub[key]
    ensures sub.Keys * sizes.Keys == {}
    ensures acc == sizes + sub
  {
    assert forall key :: key !in sub.Keys * sizes.Keys;
  }

  /** `process`: the loop over the lines, calling itself on each `cd`. */
  method ProcessDir(cmds: seq<Command>, i: nat, path: string) returns (r: Outcome<Walk>)
    requires i <= |cmds|
    ensures r == Process(cmds, i, path)
    decreases |cmds| - i, 1
  {
    var sizeMap: map<string, nat> := map[];
    var dirSize: nat := 0;
    var j := i;
    while j < |cmds|
      invariant i <= j <= |cmds|
      invariant Process(cmds, i, path) == Scan(cmds, j, path, dirSize, sizeMap)
      decreases |cmds| - j
    {
      var cmd := cmds[j];
      j := j + 1;
      match cmd
      case CdUp =>
        assert Scan(cmds, j - 1, path, dirSize, sizeMap) == Finish(path, dirSize, sizeMap, j);
        break;
      case Cd(name) =>
        var entered := Descend(cmds, j - 1, path, name, dirSize, sizeMap);
        if entered.Panics? {
          return Panics;
        }
        ScanCdStep(cmds, j - 1, path, dirSize, sizeMap, Process(cmds, j, path + "/" + name).value);
        j, dirSize, sizeMap := entered.value.next, entered.value.size, entered.value.sizes;
      case Ls | DirEntry | Blank =>
        ScanSimpleStep(cmds, j - 1, path, dirSize, sizeMap);
      case File(digits) =>
        var fileSize := ParseUsize(digits);
        if fileSize.None? {
          return Panics;
        }
        ScanSimpleStep(cmds, j - 1, path, dirSize, sizeMap);
        dirSize := dirSize + fileSize.value;
      case Unknown =>
        return Panics;
    }
    r := Finish(path, dirSize, sizeMap, j);
  }

  /** The `cd name` branch of `process`: walk the subdirectory, merge the
      paths it recorded and add its size. The result is the position after
      the subdirectory's lines, the new size and the new map, as a `Walk`
      still in progress. */
  method Descend(cmds: seq<Command>, start: nat, path: string, name: string,
                 dirSize: nat, sizeMap: map<string, nat>) returns (r: Outcome<Walk>)
    requires start < |cmds|
    requires cmds[start] == Cd(name)
    ensures r == match Process(cmds, start + 1, path + "/" + name)
      case Panics => Panics
      case Returns(sub) =>
        if sub.sizes.Keys * sizeMap.Keys != {} then Panics
        else Returns(Walk(dirSize + sub.size, sub.next, sizeMap + sub.sizes))
    decreases |cmds| - start, 0
  {
    var sub := ProcessDir(cmds, start + 1, path + "/" + name);
    if sub.Panics? {
      return Panics;
    }
    var merged := MergeInto(sizeMap, sub.value.sizes);
    if merged.Panics? {
      return Panics;
    }
    r := Returns(Walk(dirSize + sub.value.size, sub.value.next, merged.value));
  }

  // ---------------------------------------------------------------------
  // What the walk records

  /** A key at or below `path`. */
  predicate Under(key: string, path: string)
  {
    key == path || StartsWith(key, path + "/")
  }

  lemma UnderParent(key: string, path: string, name: string)
    requires Under(key, path + "/" + name)
    ensures Under(key, path)
  {
    var p := path + "/";
    assert (path + "/" + name)[..|p|] == p;
    if key != path + "/" + name {
      assert (path + "/" + name + "/")[..|p|] == p;
    }
  }

  /** The sum of `f` over the commands `cmds[a..b]`. */
  function RangeSum(cmds: seq<Command>, a: nat, b: nat, f: Command -> nat): nat
    requires a <= b <= |cmds|
    decreases b - a
  {
    if a == b then 0 else f(cmds[a]) + RangeSum(cmds, a + 1, b, f)
  }

  lemma {:induction false} RangeSumSplit(cmds: seq<Command>, a: nat, b: nat, c: nat, f: Command -> nat)
    requires a <= b <= c <= |cmds|
    ensures RangeSum(cmds, a, c, f) == RangeSum(cmds, a, b, f) + RangeSum(cmds, b, c, f)
    decreases b - a
  {
    if a < b {
      RangeSumSplit(cmds, a + 1, b, c, f);
    }
  }

  /** 1 for a line that enters a directory. */
  function EntersDir(c: Command): nat
  {
    if c.Cd? then 1 else 0
  }

  /** What a finished directory records: its own path with its size, keys
      only at or below its path, a size that is the sum of every file line
      it consumed (its subdirectories' included), and one key per directory
      entered, its own included. */
  predicate Recorded(cmds: seq<Command>, i: nat, path: string, w: Walk)
    requires i <= w.next <= |cmds|
  {
    && path in w.sizes && w.sizes[path] == w.size
    && (forall key :: key in w.sizes ==> Under(key, path))
    && w.size == RangeSum(cmds, i, w.next, FileSize)
    && |w.sizes.Keys| == 1 + RangeSum(cmds, i, w.next, EntersDir)
  }

  lemma ProcessRecords(cmds: seq<Command>, i: nat, path: string)
    requires i <= |cmds|
    ensures Process(cmds, i, path).Returns? ==> Recorded(cmds, i, path, Process(cmds, i, path).value)
  {
    ScanRecordsOwnPath(cmds, i, path, 0, map[]);
    ProcessKeysUnder(cmds, i, path);
    ProcessSizeIsFileSum(cmds, i, path);
    ProcessCountsDirs(cmds, i, path);
  }

  /** The directory's own path is recorded with its size. */
  lemma {:induction false} ScanRecordsOwnPath(cmds: seq<Command>, i: nat, path: string, size: nat, sizes: map<string, nat>)
    requires i <= |cmds|
    ensures var r := Scan(cmds, i, path, size, sizes);
      r.Returns? ==> path in r.value.sizes && r.value.sizes[path] == r.value.size
    decreases |cmds| - i
  {
    if i < |cmds| && Scan(cmds, i, path, size, sizes).Returns? {
      match cmds[i]
      case CdUp =>
      case Cd(name) =>
        var sub := ScanCdUnfold(cmds, i, path, size, sizes);
        ScanRecordsOwnPath(cmds, sub.next, path, size + sub.size, sizes + sub.sizes);
      case File(digits) =>
        ScanRecordsOwnPath(cmds, i + 1, path, size + ParseUsize(digits).value, sizes);
      case Unknown =>
      case _ =>
        ScanRecordsOwnPath(cmds, i + 1, path, size, sizes);
    }
  }

  /** Every key recorded lies at or below the directory's path. */
  lemma {:induction false} ProcessKeysUnder(cmds: seq<Command>, i: nat, path: string)
    requires i <= |cmds|
    ensures Process(cmds, i, path).Returns? ==> forall key :: key in Process(cmds, i, path).value.sizes ==> Under(key, path)
    decreases |cmds| - i, 1
  {
    ScanKeysUnder(cmds, i, path, 0, map[]);
  }

  lemma {:induction false} ScanKeysUnder(cmds: seq<Command>, i: nat, path: string, size: nat, sizes: map<string, nat>)
    requires i <= |cmds|
    requires forall key :: key in sizes ==> Under(key, path)
    ensures var r := Scan(cmds, i, path, size, sizes);
      r.Returns? ==> forall key :: key in r.value.sizes ==> Under(key, path)
    decreases |cmds| - i, 0
  {
    if i < |cmds| && Scan(cmds, i, path, size, sizes).Returns? {
      match cmds[i]
      case CdUp =>
      case Cd(name) =>
        var sub := ScanCdUnfold(cmds, i, path, size, sizes);
        ProcessKeysUnder(cmds, i + 1, path + "/" + name);
        forall key | key in sub.sizes
          ensures Under(key, path)
        {
          UnderParent(key, path, name);
        }
        ScanKeysUnder(cmds, sub.next, path, size + sub.size, sizes + sub.sizes);
      case File(digits) =>
        ScanKeysUnder(cmds, i + 1, path, size + ParseUsize(digits).value, sizes);
      case Unknown =>
      case _ =>
        ScanKeysUnder(cmds, i + 1, path, size, sizes);
    }
  }

  /** A directory's size is the sum of every file line it consumed, those
      of its subdirectories included. */
  lemma {:induction false} ProcessSizeIsFileSum(cmds: seq<Command>, i: nat, path: string)
    requires i <= |cmds|
    ensures var r := Process(cmds, i, path);
      r.Returns? ==> r.value.size == RangeSum(cmds, i, r.value.next, FileSize)
    decreases |cmds| - i, 2
  {
    ScanSizeIsFileSum(cmds, i, path, 0, map[]);
  }

  lemma {:induction false} ScanSizeIsFileSum(cmds: seq<Command>, i: nat, path: string, size: nat, sizes: map<string, nat>)
    requires i <= |cmds|
    ensures var r := Scan(cmds, i, path, size, sizes);
      r.Returns? ==> r.value.size == size + RangeSum(cmds, i, r.value.next, FileSize)
    decreases |cmds| - i, 1
  {
    var r := Scan(cmds, i, path, size, sizes);
    if i < |cmds| && r.Returns? {
      match cmds[i]
      case CdUp =>
      case Cd(name) =>
        ScanSizeAfterCd(cmds, i, path, size, sizes);
      case File(digits) =>
        ScanSizeIsFileSum(cmds, i + 1, path, size + ParseUsize(digits).value, sizes);
      case Unknown =>
      case _ =>
        ScanSizeIsFileSum(cmds, i + 1, path, size, sizes);
    }
  }

  /** `ScanSizeIsFileSum` for a line that enters a subdirectory. */
  lemma {:induction false} ScanSizeAfterCd(cmds: seq<Command>, i: nat, path: string, size: nat, sizes: map<string, nat>)
    requires i < |cmds| && cmds[i].Cd?
    ensures var r := Scan(cmds, i, path, size, sizes);
      r.Returns? ==> r.value.size == size + RangeSum(cmds, i, r.value.next, FileSize)
    decreases |cmds| - i, 0
  {
    var r := Scan(cmds, i, path, size, sizes);
    var subpath := path + "/" + cmds[i].name;
    if r.Returns? {
      var sub := ScanCdUnfold(cmds, i, path, size, sizes);
      ProcessSizeIsFileSum(cmds, i + 1, subpath);
      ScanSizeIsFileSum(cmds, sub.next, path, size + sub.size, sizes + sub.sizes);
      RangeSumSplit(cmds, i + 1, sub.next, r.value.next, FileSize);
    }
  }

  /** One key per directory entered, the directory's own included: no path
      is recorded twice. */
  lemma {:induction false} ProcessCountsDirs(cmds: seq<Command>, i: nat, path: string)
    requires i <= |cmds|
    ensures var r := Process(cmds, i, path);
      r.Returns? ==> |r.value.sizes.Keys| == 1 + RangeSum(cmds, i, r.value.next, EntersDir)
    decreases |cmds| - i, 3
  {
    ScanCountsDirs(cmds, i, path, 0, map[]);
  }

  lemma {:induction false} ScanCountsDirs(cmds: seq<Command>, i: nat, path: string, size: nat, sizes: map<string, nat>)
    requires i <= |cmds|
    ensures var r := Scan(cmds, i, path, size, sizes);
      r.Returns? ==> |r.value.sizes.Keys| == |sizes.Keys| + 1 + RangeSum(cmds, i, r.value.next, EntersDir)
    decreases |cmds| - i, 2
  {
    var r := Scan(cmds, i, path, size, sizes);
    if i == |cmds| || cmds[i].CdUp? {
      FinishKeys(path, size, sizes);
    } else if r.Returns? {
      match cmds[i]
      case Cd(name) =>
        ScanCountsAfterCd(cmds, i, path, size, sizes);
      case File(digits) =>
        ScanCountsDirs(cmds, i + 1, path, size + ParseUsize(digits).value, sizes);
      case Unknown =>
      case CdUp =>
      case Ls | DirEntry | Blank =>
        ScanCountsDirs(cmds, i + 1, path, size, sizes);
    }
  }

  /** Recording a path not yet present adds one key. */
  lemma FinishKeys(path: string, size: nat, sizes: map<string, nat>)
    ensures path !in sizes ==> |sizes[path := size].Keys| == |sizes.Keys| + 1
  {
    if path !in sizes {
      assert sizes[path := size].Keys == sizes.Keys + {path};
    }
  }

  /** `ScanCountsDirs` for a line that enters a subdirectory. */
  lemma {:induction false} ScanCountsAfterCd(cmds: seq<Command>, i: nat, path: string, size: nat, sizes: map<string, nat>)
    requires i < |cmds| && cmds[i].Cd?
    ensures var r := Scan(cmds, i, path, size, sizes);
      r.Returns? ==> |r.value.sizes.Keys| == |sizes.Keys| + 1 + RangeSum(cmds, i, r.value.next, EntersDir)
    decreases |cmds| - i, 1
  {
    if Scan(cmds, i, path, size, sizes).Returns? {
      var sub := ScanCdUnfold(cmds, i, path, size, sizes);
      ProcessCountsDirs(cmds, i + 1, path + "/" + cmds[i].name);
      ScanCountsAfterSub(cmds, i, path, size, sizes, sub);
    }
  }

  /** The rest of `ScanCountsAfterCd` once the subdirectory's walk `sub` is
      known. */
  lemma {:induction false} ScanCountsAfterSub(cmds: seq<Command>, i: nat, path: string, size: nat, sizes: map<string, nat>, sub: Walk)
    requires i < sub.next <= |cmds| && cmds[i].Cd?
    requires |sub.sizes.Keys| == 1 + RangeSum(cmds, i + 1, sub.next, EntersDir)
    requires sub.sizes.Keys * sizes.Keys == {}
    requires Scan(cmds, i, path, size, sizes) == Scan(cmds, sub.next, path, size + sub.size, sizes + sub.sizes)
    ensures var r := Scan(cmds, i, path, size, sizes);
      r.Returns? ==> |r.value.sizes.Keys| == |sizes.Keys| + 1 + RangeSum(cmds, i, r.value.next, EntersDir)
    decreases |cmds| - i, 0
  {
    var r := Scan(cmds, i, path, size, sizes);
    if r.Returns? {
      var size' := size + sub.size;
      var merged := sizes + sub.sizes;
      var rest := Scan(cmds, sub.next, path, size', merged);
      assert r == rest;
      ScanCountsDirs(cmds, sub.next, path, size', merged);
      var w := rest.value;
      CountsAfterSub(cmds, i, sizes.Keys, sub.sizes.Keys, sub.next, w.sizes.Keys, w.next);
    }
  }

  /** The arithmetic of `ScanCountsAfterCd`: the subdirectory's keys and
      the keys of the rest of the scan add up. */
  lemma CountsAfterSub(cmds: seq<Command>, i: nat, keys: set<string>, subKeys: set<string>, subNext: nat, restKeys: set<string>, restNext: nat)
    requires i < subNext <= restNext <= |cmds| && cmds[i].Cd?
    requires |subKeys| == 1 + RangeSum(cmds, i + 1, subNext, EntersDir)
    requires subKeys * keys == {}
    requires |restKeys| == |keys + subKeys| + 1 + RangeSum(cmds, subNext, restNext, EntersDir)
    ensures |restKeys| == |keys| + 1 + RangeSum(cmds, i, restNext, EntersDir)
  {
    DisjointCard(keys, subKeys);
    RangeSumSplit(cmds, i + 1, subNext, restNext, EntersDir);
  }

  /** The count of keys after merging a subdirectory's disjoint keys. */
  lemma DisjointCard(a: set<string>, b: set<string>)
    requires b * a == {}
    ensures |a + b| == |a| + |b|
  {
    assert a * b == {};
  }

  // ---------------------------------------------------------------------
  // Part 1

  /** The limit of a small directory. */
  const SMALL: nat := 100000

  function SmallSize(size: nat): nat
  {
    if size <= SMALL then size else 0
  }

  /** The sum of the sizes of at most `SMALL` over the values of a map, in
      whatever order its keys are taken. */
  ghost function SmallTotal(sizes: map<string, nat>): nat
    decreases |sizes|
  {
    if sizes == map[] then 0
    else
      var key :| key in sizes;
      SmallSize(sizes[key]) + SmallTotal(sizes - {key})
  }

  /** The total does not depend on which key is taken first, so a `HashMap`
      walked in any order gives the same sum. */
  lemma {:induction false} SmallTotalRemove(sizes: map<string, nat>, key: string)
    requires key in sizes
    ensures SmallTotal(sizes) == SmallSize(sizes[key]) + SmallTotal(sizes - {key})
    decreases |sizes|
  {
    var first :| first in sizes && SmallTotal(sizes) == SmallSize(sizes[first]) + SmallTotal(sizes - {first});
    if first != key {
      SmallTotalRemove(sizes - {first}, key);
      SmallTotalRemove(sizes - {key}, first);
      assert sizes - {first} - {key} == sizes - {key} - {first};
    }
  }

  /** Every directory adds at most `SMALL`. */
  lemma {:induction false} SmallTotalBound(sizes: map<string, nat>)
    ensures SmallTotal(sizes) <= SMALL * |sizes|
    decreases |sizes|
  {
    if sizes != map[] {
      var key :| key in sizes;
      SmallTotalRemove(sizes, key);
      SmallTotalBound(sizes - {key});
    }
  }

  /** `solve_part1` on the lines of the transcript, the walk starting at
      `C:`. */
  ghost function Part1(lines: seq<string>): Outcome<nat>
  {
    match Process(Commands(lines), 0, "C:")
    case Panics => Panics
    case Returns(w) => Returns(SmallTotal(w.sizes))
  }

  method SolvePart1(lines: seq<string>) returns (r: Outcome<nat>)
    ensures r == Part1(lines)
  {
    var walk := ProcessDir(Commands(lines), 0, "C:");
    if walk.Panics? {
      return Panics;
    }
    var rest := walk.value.sizes;
    var total := 0;
    while rest != map[]
      invariant SmallTotal(walk.value.sizes) == total + SmallTotal(rest)
      decreases |rest|
    {
      var key :| key in rest;
      SmallTotalRemove(rest, key);
      total := total + SmallSize(rest[key]);
      rest := rest - {key};
    }
    r := Returns(total);
  }
}
