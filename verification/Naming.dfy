/** Names that are printed and parsed back: stamped file names and obligation ids. */
module Naming {
  import opened Prelude
  import opened Decimals

  /* ---------- file names ---------- */

  /** The position after the last occurrence of c, or 0. */
  function AfterLast(s: string, c: char): (n: nat)
    ensures n <= |s|
    ensures forall i | n <= i < |s| :: s[i] != c
    ensures n > 0 ==> s[n - 1] == c
  {
    if s == [] then 0
    else if s[|s| - 1] == c then |s|
    else AfterLast(s[..|s| - 1], c)
  }

  /** Python's splitext on a path with '/' separators: the position of the dot that starts the
      extension, or the length of the path. Leading dots of the last component start no extension. */
  function ExtensionAt(path: string): (n: nat)
    ensures n <= |path|
  {
    var base, afterDot := AfterLast(path, '/'), AfterLast(path, '.');
    if afterDot > base && exists i | base <= i < afterDot - 1 :: path[i] != '.' then afterDot - 1 else |path|
  }

  /** Seconds-precision time stamp, as digits YYYYMMDDHHmmSS. */
  predicate IsStamp(stamp: string) {
    |stamp| == 14 && AllDigits(stamp)
  }

  /** A stamp of this century: what the pattern "_20 and twelve more digits" recognises. */
  predicate OfThisCentury(stamp: string) {
    IsStamp(stamp) && stamp[..2] == "20"
  }

  /** The stem ends in an underscore and a stamp, or does so before one final newline, where a pattern
      anchored with a dollar sign also matches. */
  predicate EndsInStamp(stem: string) {
    || (|stem| >= 15 && stem[|stem| - 15] == '_' && OfThisCentury(stem[|stem| - 14..]))
    || (|stem| >= 16 && stem[|stem| - 1] == '\n' && stem[|stem| - 16] == '_'
          && OfThisCentury(stem[|stem| - 15..|stem| - 1]))
  }

  function Unstamped(stem: string): string {
    if EndsInStamp(stem) then stem[..|stem| - 15] else stem
  }

  function AddSuffix(path: string, suffix: string): string {
    var at := ExtensionAt(path);
    Unstamped(path[..at]) + suffix + path[at..]
  }

  /** The default suffix: an underscore and the current time. */
  function Stamped(path: string, stamp: string): string {
    AddSuffix(path, "_" + stamp)
  }

  lemma {:induction false} AfterLastAppend(s: string, t: string, c: char)
    requires forall i | 0 <= i < |t| :: t[i] != c
    ensures AfterLast(s + t, c) == AfterLast(s, c)
  {
    if t == [] {
      assert s + t == s;
    } else {
      assert (s + t)[..|s + t| - 1] == s + t[..|t| - 1];
      AfterLastAppend(s, t[..|t| - 1], c);
    }
  }

  lemma {:induction false} AfterLastIs(s: string, c: char, n: nat)
    requires n <= |s| && (n > 0 ==> s[n - 1] == c) && forall i | n <= i < |s| :: s[i] != c
    ensures AfterLast(s, c) == n
  {
  }

  /** Unstamping takes characters off the end that hold no separator and no dot, except perhaps a
      newline. */
  lemma UnstampedShape(stem: string)
    ensures Unstamped(stem) <= stem
    ensures forall i | |Unstamped(stem)| <= i < |stem| :: stem[i] != '/' && stem[i] != '.'
    ensures AfterLast(Unstamped(stem), '/') == AfterLast(stem, '/')
      && AfterLast(Unstamped(stem), '.') == AfterLast(stem, '.')
  {
    var n := |Unstamped(stem)|;
    if EndsInStamp(stem) {
      forall i | n <= i < |stem| ensures stem[i] != '/' && stem[i] != '.' {
        if |stem| >= 15 && stem[|stem| - 15] == '_' && OfThisCentury(stem[|stem| - 14..]) {
          assert i > n ==> stem[i] == stem[|stem| - 14..][i - n - 1];
        } else {
          assert i < |stem| - 1 ==> stem[i] == stem[|stem| - 15..|stem| - 1][i - n];
        }
      }
    }
    assert stem == Unstamped(stem) + stem[n..];
    AfterLastAppend(Unstamped(stem), stem[n..], '/');
    AfterLastAppend(Unstamped(stem), stem[n..], '.');
  }

  lemma ExtensionAtDot(stem: string, ext: string)
    requires ext != [] && ext[0] == '.' && forall i | 0 < i < |ext| :: ext[i] != '.'
    requires forall i | 0 <= i < |ext| :: ext[i] != '/'
    requires exists i | AfterLast(stem, '/') <= i < |stem| :: stem[i] != '.'
    ensures ExtensionAt(stem + ext) == |stem|
  {
    var path := stem + ext;
    AfterLastAppend(stem, ext, '/');
    AfterLastIs(path, '.', |stem| + 1);
    var i :| AfterLast(stem, '/') <= i < |stem| && stem[i] != '.';
    assert path[i] == stem[i];
  }

  lemma ExtensionShape(path: string)
    ensures
      var ext := path[ExtensionAt(path)..];
      ext != [] ==>
        && ext[0] == '.' && (forall i | 0 < i < |ext| :: ext[i] != '.') && (forall i | 0 <= i < |ext| :: ext[i] != '/')
    ensures ExtensionAt(path) < |path| ==> AfterLast(path[..ExtensionAt(path)], '/') == AfterLast(path, '/')
  {
    var at := ExtensionAt(path);
    if at < |path| {
      assert path == path[..at] + path[at..];
      AfterLastAppend(path[..at], path[at..], '/');
    }
  }

  lemma StampedExtensionAt(path: string, stamp: string)
    requires IsStamp(stamp)
    ensures
      var at := ExtensionAt(path);
      var stem := Unstamped(path[..at]) + ("_" + stamp);
      ExtensionAt(stem + path[at..]) == |stem|
  {
    var at := ExtensionAt(path);
    var kept, mark := Unstamped(path[..at]), "_" + stamp;
    if at < |path| {
      UnstampedShape(path[..at]);
      AfterLastAppend(kept, mark, '/');
      ExtensionShape(path);
      assert (kept + mark)[|kept|] == '_';
      ExtensionAtDot(kept + mark, path[at..]);
    } else {
      assert path[..at] == path && path[at..] == [];
      NoExtensionStamped(path, stamp);
      assert (kept + mark) + [] == kept + mark;
    }
  }

  /** The stem of a stamped name is the unstamped stem and the stamp, so the extension stays. */
  lemma StampedSplits(path: string, stamp: string)
    requires IsStamp(stamp)
    ensures
      var at, again := ExtensionAt(path), Stamped(path, stamp);
      && again[..ExtensionAt(again)] == Unstamped(path[..at]) + "_" + stamp
      && again[ExtensionAt(again)..] == path[at..]
  {
    var at, again := ExtensionAt(path), Stamped(path, stamp);
    var stem, ext := Unstamped(path[..at]) + ("_" + stamp), path[at..];
    StampedExtensionAt(path, stamp);
    assert again == stem + ext;
    assert stem == Unstamped(path[..at]) + "_" + stamp;
  }

  lemma NoExtensionStamped(path: string, stamp: string)
    requires IsStamp(stamp) && ExtensionAt(path) == |path|
    ensures ExtensionAt(Unstamped(path) + ("_" + stamp)) == |Unstamped(path) + ("_" + stamp)|
  {
    var kept, mark := Unstamped(path), "_" + stamp;
    UnstampedShape(path);
    AfterLastAppend(kept, mark, '/');
    AfterLastAppend(kept, mark, '.');
    var base, dot := AfterLast(path, '/'), AfterLast(path, '.');
    assert dot <= |kept|;
    forall i | base <= i < dot - 1 ensures (kept + mark)[i] == path[i] {
      assert path[i] == kept[i];
    }
  }

  lemma FreshStampRecognised(kept: string, stamp: string)
    requires OfThisCentury(stamp)
    ensures EndsInStamp(kept + "_" + stamp) && Unstamped(kept + "_" + stamp) == kept
  {
    var stem := kept + "_" + stamp;
    assert stem[|stem| - 14..] == stamp && stem[|stem| - 15] == '_';
    assert stem[..|stem| - 15] == kept;
  }

  lemma OldStampKept(kept: string, stamp: string)
    requires IsStamp(stamp) && !OfThisCentury(stamp)
    ensures !EndsInStamp(kept + "_" + stamp)
  {
    var stem := kept + "_" + stamp;
    assert stem[|stem| - 14..] == stamp && stem[|stem| - 1] == stamp[13];
  }

  lemma CenturyIs(stamp: string)
    requires IsStamp(stamp)
    ensures OfThisCentury(stamp) <==> stamp[0] == '2' && stamp[1] == '0'
  {
    assert stamp[..2] == [stamp[0], stamp[1]];
  }

  lemma RestampAbsorbs(path: string, first: string, second: string)
    requires IsStamp(first) && IsStamp(second)
    ensures Stamped(Stamped(path, first), second) == Stamped(path, second) <==> OfThisCentury(first)
  {
    StampedSplits(path, first);
    if OfThisCentury(first) {
      FreshStampRecognised(Unstamped(path[..ExtensionAt(path)]), first);
    } else {
      OldStampKept(Unstamped(path[..ExtensionAt(path)]), first);
    }
  }

  /** Stamping a name again absorbs the earlier stamp, whatever the name, exactly when that is a stamp
      of this century: any other stays, and another is added to it. */
  lemma RestampAbsorbsIff(path: string, first: string, second: string)
    requires IsStamp(first) && IsStamp(second)
    ensures Stamped(Stamped(path, first), second) == Stamped(path, second) <==> first[0] == '2' && first[1] == '0'
  {
    RestampAbsorbs(path, first, second);
    CenturyIs(first);
  }

  /** A stem with "_20" and twelve more digits at its end, or before a final newline. */
  predicate ShapedAs(stem: string, kept: string, digits: string, end: string) {
    |digits| == 12 && AllDigits(digits) && (end == "" || end == "\n") && stem == kept + ("_20" + digits + end)
  }

  lemma ShapeRecognised(stem: string, kept: string, digits: string, end: string)
    requires ShapedAs(stem, kept, digits, end)
    ensures EndsInStamp(stem)
  {
    var mark := "_20" + digits + end;
    var n := |kept| + 15;
    assert stem[|kept|..] == mark && mark[0] == '_' && mark[1..15] == "20" + digits;
    assert stem[|kept| + 1..n] == mark[1..15] && stem[|kept|] == mark[0];
    assert ("20" + digits)[..2] == "20";
    if end == "\n" {
      assert mark[15] == '\n' && stem[|stem| - 1] == mark[15];
    } else {
      assert stem[|stem| - 14..] == stem[|kept| + 1..n];
    }
  }

  lemma RecognisedShape(stem: string) returns (kept: string, digits: string, end: string)
    requires EndsInStamp(stem)
    ensures ShapedAs(stem, kept, digits, end)
  {
    if |stem| >= 15 && stem[|stem| - 15] == '_' && OfThisCentury(stem[|stem| - 14..]) {
      kept, end := stem[..|stem| - 15], "";
      var stamp := stem[|stem| - 14..];
      digits := stamp[2..];
      assert stamp == stamp[..2] + digits;
      assert stem == kept + ("_" + stamp);
    } else {
      kept, end := stem[..|stem| - 16], "\n";
      var stamp := stem[|stem| - 15..|stem| - 1];
      digits := stamp[2..];
      assert stamp == stamp[..2] + digits;
      assert stem == kept + ("_" + stamp + end);
    }
  }

  /** Exactly such a stem is recognised as stamped; fifteen characters are then taken off. */
  lemma UnstampedExact(stem: string)
    ensures EndsInStamp(stem) <==> exists kept, digits, end :: ShapedAs(stem, kept, digits, end)
    ensures Unstamped(stem) == if EndsInStamp(stem) then stem[..|stem| - 15] else stem
  {
    if EndsInStamp(stem) {
      var kept, digits, end := RecognisedShape(stem);
    }
    if kept, digits, end :| ShapedAs(stem, kept, digits, end) {
      ShapeRecognised(stem, kept, digits, end);
    }
  }

  /** Where the extension starts: at the last dot of the last component, if some character before it in
      that component is not a dot. */
  predicate StartsExtension(path: string, n: nat) {
    && n < |path| && path[n] == '.'
    && (forall j | n < j < |path| :: path[j] != '.' && path[j] != '/')
    && exists i | 0 <= i < n :: path[i] != '.' && forall j | i <= j < n :: path[j] != '/'
  }

  lemma ExtensionAtIff(path: string, n: nat)
    requires n < |path|
    ensures ExtensionAt(path) == n <==> StartsExtension(path, n)
  {
    var base, afterDot := AfterLast(path, '/'), AfterLast(path, '.');
    if StartsExtension(path, n) {
      AfterLastIs(path, '.', n + 1);
      var i :| 0 <= i < n && path[i] != '.' && forall j | i <= j < n :: path[j] != '/';
      assert base <= i;
    }
    if ExtensionAt(path) == n {
      var i :| base <= i < afterDot - 1 && path[i] != '.';
      assert forall j | i <= j < n :: path[j] != '/';
    }
  }

  /** A name without a place where an extension starts has none. */
  lemma NoExtensionIff(path: string)
    ensures ExtensionAt(path) == |path| <==> forall n | 0 <= n < |path| :: !StartsExtension(path, n)
  {
    if ExtensionAt(path) < |path| {
      ExtensionAtIff(path, ExtensionAt(path));
    } else {
      forall n | 0 <= n < |path| ensures !StartsExtension(path, n) {
        ExtensionAtIff(path, n);
      }
    }
  }

  /** The name after the first n duplications. */
  function StampedAll(path: string, stamps: seq<string>, n: nat): string
    requires n <= |stamps|
  {
    if n == 0 then path else Stamped(StampedAll(path, stamps, n - 1), stamps[n - 1])
  }

  lemma StampedOnce(path: string, name: string, first: string, second: string)
    requires OfThisCentury(first) && IsStamp(second) && name == Stamped(path, first)
    ensures Stamped(name, second) == Stamped(path, second)
  {
    RestampAbsorbs(path, first, second);
  }

  /** Any number of duplications leave one stamp, the last. */
  lemma {:induction false} DuplicationsAbsorbed(path: string, stamps: seq<string>, n: nat)
    requires 0 < n <= |stamps| && forall s | s in stamps :: OfThisCentury(s)
    ensures StampedAll(path, stamps, n) == Stamped(path, stamps[n - 1])
  {
    assert stamps[n - 1] in stamps;
    if n > 1 {
      var first, second := stamps[n - 2], stamps[n - 1];
      assert first in stamps;
      DuplicationsAbsorbed(path, stamps, n - 1);
      StampedOnce(path, StampedAll(path, stamps, n - 1), first, second);
    } else {
      assert StampedAll(path, stamps, 0) == path;
    }
  }

  /** They lengthen the name by 15 characters at most; a name that carries a stamp already keeps its
      length. */
  lemma DuplicatedLength(path: string, stamps: seq<string>, n: nat)
    requires 0 < n <= |stamps| && forall s | s in stamps :: OfThisCentury(s)
    ensures |StampedAll(path, stamps, n)| == if EndsInStamp(path[..ExtensionAt(path)]) then |path| else |path| + 15
  {
    var last := stamps[n - 1];
    assert last in stamps;
    DuplicationsAbsorbed(path, stamps, n);
    StampedLength(path, last);
  }

  lemma StampedLength(path: string, stamp: string)
    requires IsStamp(stamp)
    ensures |Stamped(path, stamp)| == if EndsInStamp(path[..ExtensionAt(path)]) then |path| else |path| + 15
  {
  }

  /* ---------- the bucket the copies go to ---------- */

  datatype CopyError = NotClean | NameTaken

  class CleanBucket<Content> {
    var blobs: map<string, Content>

    constructor ()
      ensures blobs == map[]
    {
      blobs := map[];
    }

    /** Copies a clean file under its newly stamped name; an existing name is never overwritten. */
    method DuplicateFile(name: string, stamp: string) returns (copy: Result<string, CopyError>)
      modifies this
      ensures copy == if name !in old(blobs) then Err(NotClean)
                      else if Stamped(name, stamp) in old(blobs) then Err(NameTaken)
                      else Ok(Stamped(name, stamp))
      ensures blobs == match copy case Err(_) => old(blobs) case Ok(file) => old(blobs)[file := old(blobs)[name]]
    {
      var file := Stamped(name, stamp);
      if name !in blobs {
        return Err(NotClean);
      }
      if file in blobs {
        return Err(NameTaken);
      }
      blobs := blobs[file := blobs[name]];
      return Ok(file);
    }
  }

  /* ---------- obligation ids ---------- */

  /** A BORO id: two digits, a dash, four digits. */
  predicate IsBoroId(s: string) {
    |s| == 7 && s[2] == '-' && AllDigits(s[..2]) && AllDigits(s[3..])
  }

  datatype ObligationKey = ObligationKey(boroId: string, report: nat, version: nat)

  function ObligationId(k: ObligationKey): string {
    k.boroId + "-" + Show(k.report) + "-" + Show(k.version)
  }

  /** The position of the first dash. */
  function FirstDash(s: string): (n: nat)
    ensures n <= |s| && (n < |s| ==> s[n] == '-') && forall i | 0 <= i < n :: s[i] != '-'
  {
    if s == [] || s[0] == '-' then 0 else 1 + FirstDash(s[1..])
  }

  function ParseObligationId(s: string): Option<ObligationKey> {
    if |s| < 8 || !IsBoroId(s[..7]) || s[7] != '-' then None
    else
      var rest := s[8..];
      var dash := FirstDash(rest);
      if dash == |rest| || dash == 0 || dash + 1 == |rest| then None
      else if !AllDigits(rest[..dash]) || !AllDigits(rest[dash + 1..]) then None
      else Some(ObligationKey(s[..7], Read(rest[..dash]), Read(rest[dash + 1..])))
  }

  lemma FirstDashIs(a: string, x: string)
    requires AllDigits(a)
    ensures FirstDash(a + "-" + x) == |a|
  {
    var s := a + "-" + x;
    assert forall i | 0 <= i < |a| :: s[i] == a[i];
    assert s[|a|] == '-';
  }

  lemma ObligationIdSplits(k: ObligationKey)
    requires IsBoroId(k.boroId)
    ensures
      var s, rest := ObligationId(k), Show(k.report) + "-" + Show(k.version);
      |s| >= 8 && s[..7] == k.boroId && s[7] == '-' && s[8..] == rest
  {
    assert ObligationId(k) == k.boroId + ("-" + (Show(k.report) + "-" + Show(k.version)));
  }

  /** An obligation id reads back to the BORO id, report and version it was made from. */
  lemma ParseObligationRoundTrip(k: ObligationKey)
    requires IsBoroId(k.boroId)
    ensures ParseObligationId(ObligationId(k)) == Some(k)
  {
    var report, version := Show(k.report), Show(k.version);
    var rest := report + "-" + version;
    ObligationIdSplits(k);
    FirstDashIs(report, version);
    assert rest[..|report|] == report && rest[|report| + 1..] == version;
    ReadShow(k.report);
    ReadShow(k.version);
  }

  lemma ObligationIdInjective(k: ObligationKey, k': ObligationKey)
    requires IsBoroId(k.boroId) && IsBoroId(k'.boroId) && ObligationId(k) == ObligationId(k')
    ensures k == k'
  {
    ParseObligationRoundTrip(k);
    ParseObligationRoundTrip(k');
  }

  /** It fits its 30-character column exactly when report and version share at most 21 digits; 10 for
      each, that is any 32-bit keys, always do. */
  lemma ObligationIdFits(k: ObligationKey)
    requires IsBoroId(k.boroId)
    ensures |ObligationId(k)| <= 30 <==> |Show(k.report)| + |Show(k.version)| <= 21
    ensures k.report < Power10(10) && k.version < Power10(10) ==> |ObligationId(k)| <= 30
  {
    ShowLength(k.report, 10);
    ShowLength(k.version, 10);
  }

  /** Report 12, version 345 of the operation with BORO id 21-0001. */
  lemma ObligationIdExample()
    ensures ObligationId(ObligationKey("21-0001", 12, 345)) == "21-0001-12-345"
  {
    assert Show(1) == "1" && Show(12) == "12";
    assert Show(3) == "3" && Show(34) == "34" && Show(345) == "345";
  }
}
