/**
 The memoised SVG font/image classifier `svgIsFont`
 (gemstone-config-webpack.js, lines 77-88) and the two nested SVG rules that
 consult it (lines 260-274, again at 352-366).

 The file system is a read-only map from path to text that each query is
 given; a path missing from it makes `fs.readFileSync` throw, which the
 classifier does not catch.
 */
module SvgClassifier {
  import opened FontPattern

  type Path = string
  type FileSystem = map<Path, string>

  /** `fs.readFileSync` throws for a path that is not there. */
  datatype ReadError = ReadError(path: Path)

  datatype Result<T> = Ok(value: T) | Err(error: ReadError)

  /** Which of the two nested SVG rules apply: the image rule of line 262
      (`!svgIsFont(path)`) and the font rule of line 268 (`svgIsFont(path)`). */
  datatype SvgRuleMatch = SvgRuleMatch(imageRule: bool, fontRule: bool)

  /** The classifier as written: on a miss it stores the constant `true`
      (line 84), not the value it computed. */
  class SvgFontCache {
    /** `isFontCache`: path to the stored flag. */
    var entries: map<Path, bool>
    /** The paths whose file was read, in the order of the reads. */
    var readLog: seq<Path>

    /** Every stored flag is `true`, whatever the file held. */
    ghost predicate Valid()
      reads this
    {
      forall p | p in entries :: entries[p]
    }

    constructor ()
      ensures Valid()
      ensures entries == map[] && readLog == []
    {
      entries := map[];
      readLog := [];
    }

    /** `svgIsFont(path)`. A hit returns the stored flag without reading; a
        miss reads the file, answers whether its text matches the font
        pattern and stores `true` under `path`. A failed read stores nothing. */
    method IsFont(fs: FileSystem, path: Path) returns (r: Result<bool>)
      requires Valid()
      modifies this
      ensures Valid()
      ensures path in old(entries) ==>
        r == Ok(true) && entries == old(entries) && readLog == old(readLog)
      ensures path !in old(entries) ==> readLog == old(readLog) + [path]
      ensures path !in old(entries) && path !in fs ==>
        r == Err(ReadError(path)) && entries == old(entries)
      ensures path !in old(entries) && path in fs ==>
        r == Ok(FontElementMatch(fs[path])) && entries == old(entries)[path := true]
    {
      if path in entries {
        r := Ok(entries[path]);
      } else {
        readLog := readLog + [path];
        if path !in fs {
          r := Err(ReadError(path));
        } else {
          var svg := fs[path];
          var isFont := FontElementMatch(svg);
          entries := entries[path := true];
          r := Ok(isFont);
        }
      }
    }

    /** The two nested SVG rule tests for one module, in order: line 262, then
        line 268. An error in the first test aborts before the second. */
    method MatchSvgRules(fs: FileSystem, path: Path) returns (r: Result<SvgRuleMatch>)
      requires Valid()
      modifies this
      ensures Valid()
      ensures path in old(entries) ==> r == Ok(SvgRuleMatch(false, true))
      ensures path !in old(entries) && path !in fs ==> r == Err(ReadError(path))
      ensures path !in old(entries) && path in fs ==>
        r == Ok(SvgRuleMatch(!FontElementMatch(fs[path]), true))
      ensures path in fs ==> entries == old(entries)[path := true]
      ensures path !in fs ==> entries == old(entries)
      ensures readLog == old(readLog) + (if path in old(entries) then [] else [path])
    {
      var first := IsFont(fs, path);
      if first.Err? {
        r := Err(first.error);
      } else {
        var second := IsFont(fs, path);
        r := Ok(SvgRuleMatch(!first.value, second.value));
      }
    }
  }

  /** The intended classifier: it stores the value it computed. */
  class CorrectedSvgFontCache {
    var entries: map<Path, bool>
    var readLog: seq<Path>

    constructor ()
      ensures entries == map[] && readLog == []
    {
      entries := map[];
      readLog := [];
    }

    method IsFont(fs: FileSystem, path: Path) returns (r: Result<bool>)
      modifies this
      ensures path in old(entries) ==>
        r == Ok(old(entries)[path]) && entries == old(entries) && readLog == old(readLog)
      ensures path !in old(entries) ==> readLog == old(readLog) + [path]
      ensures path !in old(entries) && path !in fs ==>
        r == Err(ReadError(path)) && entries == old(entries)
      ensures path !in old(entries) && path in fs ==>
        r == Ok(FontElementMatch(fs[path]))
        && entries == old(entries)[path := FontElementMatch(fs[path])]
    {
      if path in entries {
        r := Ok(entries[path]);
      } else {
        readLog := readLog + [path];
        if path !in fs {
          r := Err(ReadError(path));
        } else {
          var svg := fs[path];
          var isFont := FontElementMatch(svg);
          entries := entries[path := isFont];
          r := Ok(isFont);
        }
      }
    }
  }

  /** Both SVG rule tests of one module on a fresh classifier as written: the
      font rule always applies, and a non-font SVG gets the image rule too. */
  method SvgRulesOnFreshCache(fs: FileSystem, path: Path) returns (r: Result<SvgRuleMatch>)
    ensures path !in fs ==> r == Err(ReadError(path))
    ensures path in fs ==> r.Ok? && r.value.fontRule
    ensures path in fs ==> (r.value.imageRule <==> !FontElementMatch(fs[path]))
  {
    var cache := new SvgFontCache();
    r := cache.MatchSvgRules(fs, path);
  }

  /** Two queries of one path on a fresh classifier as written: the first is
      the file's classification, the second is `true` whatever the file holds. */
  method QueryTwice(fs: FileSystem, path: Path) returns (first: Result<bool>, second: Result<bool>)
    ensures path !in fs ==> first == second == Err(ReadError(path))
    ensures path in fs ==> first == Ok(FontElementMatch(fs[path])) && second == Ok(true)
    ensures path in fs && !FontElementMatch(fs[path]) ==> first != second
  {
    var cache := new SvgFontCache();
    first := cache.IsFont(fs, path);
    second := cache.IsFont(fs, path);
  }

  /** Two queries of one path on a fresh corrected classifier agree. */
  method CorrectedQueryTwice(fs: FileSystem, path: Path) returns (first: Result<bool>, second: Result<bool>)
    ensures path !in fs ==> first == second == Err(ReadError(path))
    ensures path in fs ==> first == second == Ok(FontElementMatch(fs[path]))
  {
    var cache := new CorrectedSvgFontCache();
    first := cache.IsFont(fs, path);
    second := cache.IsFont(fs, path);
  }

  /** What the classifier as written answers for `p` after the queries
      `earlier` on the same file system: a read error for a missing file,
      `true` once the path was queried before, else the file's classification. */
  function AnswerAsWritten(fs: FileSystem, earlier: seq<Path>, p: Path): Result<bool> {
    if p !in fs then Err(ReadError(p))
    else if p in earlier then Ok(true)
    else Ok(FontElementMatch(fs[p]))
  }

  /** The reads a classifier as written makes for the queries `ps`: every
      query of a path not yet cached, which is a path not queried before or
      one whose file is missing. */
  function Misses(fs: FileSystem, ps: seq<Path>): seq<Path>
    decreases |ps|
  {
    if ps == [] then []
    else
      var init, p := ps[..|ps| - 1], ps[|ps| - 1];
      Misses(fs, init) + (if p in fs && p in init then [] else [p])
  }

  /** Each existing file is read once however often it is queried; a missing
      file is tried once per query. */
  lemma {:induction false} MissesReadOnce(fs: FileSystem, ps: seq<Path>, q: Path)
    ensures q in fs ==> multiset(Misses(fs, ps))[q] == if q in ps then 1 else 0
    ensures q !in fs ==> multiset(Misses(fs, ps))[q] == multiset(ps)[q]
    decreases |ps|
  {
    if ps != [] {
      var init, p := ps[..|ps| - 1], ps[|ps| - 1];
      MissesReadOnce(fs, init, q);
      assert ps == init + [p];
      var extra := if p in fs && p in init then [] else [p];
      assert multiset(Misses(fs, ps)) == multiset(Misses(fs, init)) + multiset(extra);
      assert multiset(ps) == multiset(init) + multiset{p};
      assert q in ps <==> q in init || q == p;
    }
  }

  /** The answers a fresh classifier as written gives to the queries `ps`. */
  function Answers(fs: FileSystem, ps: seq<Path>): seq<Result<bool>>
    decreases |ps|
  {
    if ps == [] then []
    else
      var init := ps[..|ps| - 1];
      Answers(fs, init) + [AnswerAsWritten(fs, init, ps[|ps| - 1])]
  }

  /** The cache a fresh classifier as written holds after the queries `ps`. */
  function Stored(fs: FileSystem, ps: seq<Path>): map<Path, bool>
    decreases |ps|
  {
    if ps == [] then map[]
    else
      var m, p := Stored(fs, ps[..|ps| - 1]), ps[|ps| - 1];
      if p in fs then m[p := true] else m
  }

  /** Query `j` is answered from what the queries before it did. */
  lemma {:induction false} AnswersAt(fs: FileSystem, ps: seq<Path>, j: nat)
    requires j < |ps|
    ensures |Answers(fs, ps)| == |ps|
    ensures Answers(fs, ps)[j] == AnswerAsWritten(fs, ps[..j], ps[j])
    decreases |ps|
  {
    var init := ps[..|ps| - 1];
    if j < |init| {
      AnswersAt(fs, init, j);
      assert init[..j] == ps[..j];
    } else {
      assert init == ps[..j];
      if init != [] { AnswersAt(fs, init, 0); }
    }
  }

  /** The cache holds `true` for exactly the queried paths whose file exists. */
  lemma {:induction false} StoredKeys(fs: FileSystem, ps: seq<Path>, q: Path)
    ensures q in Stored(fs, ps) <==> q in ps && q in fs
    ensures q in Stored(fs, ps) ==> Stored(fs, ps)[q]
    decreases |ps|
  {
    if ps != [] {
      var init := ps[..|ps| - 1];
      StoredKeys(fs, init, q);
      assert ps == init + [ps[|ps| - 1]];
      assert q in ps <==> q in init || q == ps[|ps| - 1];
    }
  }

  /** A build's worth of queries, one per SVG module, on one fresh classifier
      as written. A path is answered from its file the first time it is read
      successfully and `true` every time after; the reads are exactly the
      misses; the cache ends holding `true` for exactly the existing paths
      queried. */
  method QueryAll(fs: FileSystem, paths: seq<Path>)
    returns (results: seq<Result<bool>>, filesRead: seq<Path>, entries: map<Path, bool>)
    ensures results == Answers(fs, paths)
    ensures filesRead == Misses(fs, paths)
    ensures entries == Stored(fs, paths)
  {
    var cache := new SvgFontCache();
    results := [];
    var i := 0;
    while i < |paths|
      invariant 0 <= i <= |paths|
      invariant cache.Valid()
      invariant results == Answers(fs, paths[..i])
      invariant cache.readLog == Misses(fs, paths[..i])
      invariant cache.entries == Stored(fs, paths[..i])
    {
      var p := paths[i];
      assert paths[..i + 1][..i] == paths[..i];
      StoredKeys(fs, paths[..i], p);
      var r := cache.IsFont(fs, p);
      results := results + [r];
      i := i + 1;
    }
    assert paths[..i] == paths;
    filesRead := cache.readLog;
    entries := cache.entries;
  }

  /** A build's worth of queries on one shared corrected classifier: every
      answer is the classification of the queried file, whatever was queried
      before it, and a missing file is a read error every time. */
  method CorrectedQueryAll(fs: FileSystem, paths: seq<Path>) returns (results: seq<Result<bool>>)
    ensures |results| == |paths|
    ensures forall j | 0 <= j < |paths| && paths[j] in fs ::
      results[j] == Ok(FontElementMatch(fs[paths[j]]))
    ensures forall j | 0 <= j < |paths| && paths[j] !in fs :: results[j] == Err(ReadError(paths[j]))
  {
    var cache := new CorrectedSvgFontCache();
    results := [];
    var i := 0;
    while i < |paths|
      invariant 0 <= i <= |paths|
      invariant |results| == i
      invariant forall p | p in cache.entries :: p in fs && cache.entries[p] == FontElementMatch(fs[p])
      invariant forall j | 0 <= j < i && paths[j] in fs :: results[j] == Ok(FontElementMatch(fs[paths[j]]))
      invariant forall j | 0 <= j < i && paths[j] !in fs :: results[j] == Err(ReadError(paths[j]))
    {
      var r := cache.IsFont(fs, paths[i]);
      results := results + [r];
      i := i + 1;
    }
  }
}
