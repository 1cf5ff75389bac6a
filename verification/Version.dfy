/**
 Software versions (protocube/software/version.go): parsing, order, constraint expressions, and the choice
 of a Docker image. Strings are sequences of characters.
 */
module Version {
  import opened Wrappers
  import opened Sequences
  import opened Integers
  import opened Numerals

  // ---------------------------------------------------------------------------
  // Text
  // ---------------------------------------------------------------------------

  predicate IsSpace(c: char) {
    || '\t' <= c <= '\r' || c == ' ' || c == '\U{85}' || c == '\U{A0}' || c == '\U{1680}'
    || '\U{2000}' <= c <= '\U{200A}' || c == '\U{2028}' || c == '\U{2029}'
    || c == '\U{202F}' || c == '\U{205F}' || c == '\U{3000}'
  }

  /** The white space characters of Unicode. */
  lemma SpaceTable(c: char)
    ensures IsSpace(c) <==>
            c in ['\t', '\n', '\U{0B}', '\U{0C}', '\r', ' ', '\U{85}', '\U{A0}', '\U{1680}', '\U{2000}', '\U{2001}',
                  '\U{2002}', '\U{2003}', '\U{2004}', '\U{2005}', '\U{2006}', '\U{2007}', '\U{2008}', '\U{2009}',
                  '\U{200A}', '\U{2028}', '\U{2029}', '\U{202F}', '\U{205F}', '\U{3000}']
  {
  }

  function TrimLeft(s: string): string {
    if s != "" && IsSpace(s[0]) then TrimLeft(s[1..]) else s
  }

  function TrimRight(s: string): string {
    if s != "" && IsSpace(s[|s| - 1]) then TrimRight(s[..|s| - 1]) else s
  }

  function Trim(s: string): string {
    TrimRight(TrimLeft(s))
  }

  /** The length of the longest prefix without white space. */
  function WordLength(s: string): (n: nat)
    ensures n <= |s| && (forall i :: 0 <= i < n ==> !IsSpace(s[i])) && (n < |s| ==> IsSpace(s[n]))
  {
    if s == "" || IsSpace(s[0]) then 0 else 1 + WordLength(s[1..])
  }

  function Fields(s: string): seq<string>
    decreases |s|
  {
    if s == "" then []
    else if IsSpace(s[0]) then Fields(s[1..])
    else var n := WordLength(s); [s[..n]] + Fields(s[n..])
  }

  function DigitsLength(s: string): (n: nat)
    ensures n <= |s| && (forall i :: 0 <= i < n ==> IsDigit(s[i])) && (n < |s| ==> !IsDigit(s[n]))
  {
    if s == "" || !IsDigit(s[0]) then 0 else 1 + DigitsLength(s[1..])
  }

  // ---------------------------------------------------------------------------
  // Parsing
  // ---------------------------------------------------------------------------

  predicate AreNumbers(parts: seq<string>) {
    parts != [] && forall p :: p in parts ==> IsNumber(p)
  }

  /** What the pattern allows behind the numeric core; its dot does not match a line feed. */
  predicate IsTail(rest: string) {
    rest == "" || (!IsDigit(rest[0]) && '\n' !in rest[1..])
  }

  /** A way in which the pattern matches the whole of `s`. */
  ghost predicate PatternSplits(s: string, parts: seq<string>, rest: string) {
    AreNumbers(parts) && s == Join(parts) + rest && IsTail(rest)
  }

  /** The longest numeric core, split at its dots, and what is behind it. */
  function Core(s: string): (r: Option<(seq<string>, string)>)
    decreases |s|
  {
    var n := DigitsLength(s);
    if n == 0 then None
    else if n < |s| && s[n] == '.' then
      match Core(s[n + 1..])
      case Some((parts, rest)) => Some(([s[..n]] + parts, rest))
      case None => Some(([s[..n]], s[n..]))
    else Some(([s[..n]], s[n..]))
  }

  datatype ParseError = Empty | NoNumber | TooLarge

  function Values(parts: seq<string>): (r: Result<seq<nat>, ParseError>)
    requires forall p :: p in parts ==> IsNumber(p)
    ensures r.Success? ==> |r.value| == |parts|
  {
    if parts == [] then Success([])
    else if assert IsNumber(parts[0]); Value(parts[0]) > MAX_INT64 then Failure(TooLarge)
    else match Values(parts[1..])
      case Success(ns) => Success([Value(parts[0])] + ns)
      case Failure(e) => Failure(e)
  }

  lemma FirstNumber(s: string, p: string, tail: string)
    requires IsNumber(p) && s == p + tail && (tail == "" || !IsDigit(tail[0]))
    ensures DigitsLength(s) == |p| && s[..|p|] == p && s[|p|..] == tail
  {
    assert forall i :: 0 <= i < |p| ==> s[i] == p[i] && IsDigit(s[i]);
    assert |p| < |s| ==> s[|p|] == tail[0];
  }

  lemma CoreStep(s: string, p: string, tail: string)
    requires IsNumber(p) && s == p + tail && (tail == "" || !IsDigit(tail[0]))
    ensures Core(s) ==
            if tail != "" && tail[0] == '.' && Core(tail[1..]).Some?
            then Some(([p] + Core(tail[1..]).value.0, Core(tail[1..]).value.1))
            else Some(([p], tail))
  {
    FirstNumber(s, p, tail);
    if tail != "" {
      assert s[|p|] == tail[0] && s[|p| + 1..] == tail[1..];
    }
  }

  /** `s` is the numbers joined by dots, followed by a rest that does not start with a digit. */
  ghost predicate Splits(s: string, parts: seq<string>, rest: string) {
    AreNumbers(parts) && s == Join(parts) + rest && (rest != "" ==> !IsDigit(rest[0]))
  }

  lemma {:induction false} CoreSplits(s: string)
    ensures Core(s).Some? ==> Splits(s, Core(s).value.0, Core(s).value.1)
    decreases |s|
  {
    var n := DigitsLength(s);
    if n > 0 {
      var p, tail := s[..n], s[n..];
      assert s == p + tail;
      CoreStep(s, p, tail);
      if tail != "" && tail[0] == '.' && Core(tail[1..]).Some? {
        CoreSplits(tail[1..]);
        SplitsCons(p, tail, Core(tail[1..]).value.0, Core(tail[1..]).value.1);
      }
    }
  }

  lemma SplitsCons(p: string, tail: string, parts: seq<string>, rest: string)
    requires IsNumber(p) && tail != "" && tail[0] == '.' && Splits(tail[1..], parts, rest)
    ensures Splits(p + tail, [p] + parts, rest)
  {
    JoinCons(p, parts);
    assert tail == "." + tail[1..];
    assert p + ("." + (Join(parts) + rest)) == p + "." + Join(parts) + rest;
  }

  lemma JoinCons(p: string, parts: seq<string>)
    requires IsNumber(p) && AreNumbers(parts)
    ensures AreNumbers([p] + parts) && Join([p] + parts) == p + "." + Join(parts)
  {
    assert ([p] + parts)[1..] == parts;
  }

  function Parsed(v: string): Result<seq<nat>, ParseError> {
    var s := Trim(v);
    if s == "" then Failure(Empty)
    else match Core(s)
      case None => Failure(NoNumber)
      case Some((parts, rest)) =>
        CoreSplits(s);
        if IsTail(rest) then Values(parts) else Failure(NoNumber)
  }

  /** The loop over the components of the core. */
  method ParseVersion(v: string) returns (r: Result<seq<nat>, ParseError>)
    ensures r == Parsed(v)
  {
    var s := Trim(v);
    if s == "" {
      return Failure(Empty);
    }
    var matched := Core(s);
    if matched == None {
      return Failure(NoNumber);
    }
    CoreSplits(s);
    var (parts, rest) := matched.value;
    if !IsTail(rest) {
      return Failure(NoNumber);
    }
    var result: seq<nat> := [];
    assert parts[0..] == parts;
    PrependedNothing(Values(parts));
    for i := 0 to |parts|
      invariant Values(parts) == Prepended(result, Values(parts[i..]))
    {
      assert IsNumber(parts[i]) && parts[i..][1..] == parts[i + 1..];
      var n := Value(parts[i]);
      if n > MAX_INT64 {
        return Failure(TooLarge);
      }
      PrependedTwice(result, n, Values(parts[i + 1..]));
      result := result + [n];
    }
    assert parts[|parts|..] == [] && result + [] == result;
    return Success(result);
  }

  function Prepended(ns: seq<nat>, r: Result<seq<nat>, ParseError>): Result<seq<nat>, ParseError> {
    if r.Success? then Success(ns + r.value) else r
  }

  lemma PrependedNothing(r: Result<seq<nat>, ParseError>)
    ensures Prepended([], r) == r
  {
    if r.Success? {
      assert [] + r.value == r.value;
    }
  }

  lemma PrependedTwice(ns: seq<nat>, n: nat, r: Result<seq<nat>, ParseError>)
    ensures Prepended(ns, Prepended([n], r)) == Prepended(ns + [n], r)
  {
    if r.Success? {
      assert ns + ([n] + r.value) == ns + [n] + r.value;
    }
  }

  /** However the pattern matches, it takes an initial run of the longest core's components, and the
      longest core matches too: the pattern matches exactly when the longest core does. */
  lemma {:induction false} PatternTakesLongestCore(s: string, parts: seq<string>, rest: string)
    requires PatternSplits(s, parts, rest)
    ensures Core(s).Some? && parts <= Core(s).value.0 && IsTail(Core(s).value.1)
    decreases |parts|
  {
    var p := parts[0];
    assert IsNumber(p);
    if |parts| == 1 {
      CoreStep(s, p, rest);
      if rest != "" && rest[0] == '.' && Core(rest[1..]).Some? {
        var (more, behind) := Core(rest[1..]).value;
        CoreSplits(rest[1..]);
        SuffixKeepsOut(rest[1..], Join(more), behind, '\n');
      }
    } else {
      var tail := "." + (Join(parts[1..]) + rest);
      JoinSuffix(parts, rest);
      CoreStep(s, p, tail);
      assert tail[1..] == Join(parts[1..]) + rest;
      PatternTakesLongestCore(tail[1..], parts[1..], rest);
    }
  }

  lemma SuffixKeepsOut(s: string, front: string, back: string, c: char)
    requires s == front + back && c !in s
    ensures c !in back
  {
    forall i | 0 <= i < |back| ensures back[i] != c {
      assert s[|front| + i] == back[i];
    }
  }

  // ---------------------------------------------------------------------------
  // Formatting and parsing back
  // ---------------------------------------------------------------------------

  function Decimals(ns: seq<nat>): (parts: seq<string>)
    ensures |parts| == |ns| && forall p :: p in parts ==> IsNumber(p)
  {
    if ns == [] then [] else [Decimal(ns[0])] + Decimals(ns[1..])
  }

  lemma {:induction false} ValuesOfDecimals(ns: seq<nat>)
    requires forall n :: n in ns ==> n <= MAX_INT64
    ensures Values(Decimals(ns)) == Success(ns)
  {
    if ns != [] {
      assert forall n :: n in ns[1..] ==> n in ns;
      ValuesOfDecimals(ns[1..]);
      assert ns[0] in ns && Value(Decimals(ns)[0]) == ns[0];
      assert Decimals(ns)[1..] == Decimals(ns[1..]);
      assert [ns[0]] + ns[1..] == ns;
    }
  }

  /** Text that ends a version: no digit, no dot, and no line feed further on. */
  predicate EndsVersion(suffix: string) {
    IsTail(suffix) && (suffix != "" ==> suffix[0] != '.')
  }

  lemma JoinSuffix(parts: seq<string>, suffix: string)
    requires |parts| > 1
    ensures Join(parts) + suffix == parts[0] + ("." + (Join(parts[1..]) + suffix))
  {
  }

  lemma {:induction false} CoreOfJoin(parts: seq<string>, suffix: string)
    requires AreNumbers(parts) && (suffix != "" ==> !IsDigit(suffix[0]) && suffix[0] != '.')
    ensures Core(Join(parts) + suffix) == Some((parts, suffix))
    decreases |parts|
  {
    var p := parts[0];
    assert IsNumber(p);
    if |parts| == 1 {
      CoreStep(p + suffix, p, suffix);
      assert parts == [p];
    } else {
      CoreOfJoin(parts[1..], suffix);
      JoinSuffix(parts, suffix);
      CoreOfDotted(p, Join(parts[1..]) + suffix, parts[1..], suffix);
      assert [p] + parts[1..] == parts;
    }
  }

  lemma CoreOfDotted(p: string, rest: string, parts: seq<string>, suffix: string)
    requires IsNumber(p) && Core(rest) == Some((parts, suffix))
    ensures Core(p + ("." + rest)) == Some(([p] + parts, suffix))
  {
    CoreStep(p + ("." + rest), p, "." + rest);
    assert ("." + rest)[1..] == rest;
  }

  /** Parsing undoes formatting, and ignores any suffix that cannot be read as part of the number. */
  lemma ParseUndoesFormat(ns: seq<nat>, suffix: string)
    requires ns != [] && forall n :: n in ns ==> n <= MAX_INT64
    requires EndsVersion(suffix) && (suffix != "" ==> !IsSpace(suffix[|suffix| - 1]))
    ensures Parsed(Join(Decimals(ns)) + suffix) == Success(ns)
  {
    var parts := Decimals(ns);
    CoreOfJoin(parts, suffix);
    ValuesOfDecimals(ns);
    JoinIsTrimmed(parts, suffix);
  }

  lemma {:induction false} ValuesTooLarge(ns: seq<nat>, i: nat)
    requires i < |ns| && ns[i] > MAX_INT64
    ensures Values(Decimals(ns)) == Failure(TooLarge)
  {
    assert Value(Decimals(ns)[0]) == ns[0] && Decimals(ns)[1..] == Decimals(ns[1..]);
    if ns[0] <= MAX_INT64 {
      ValuesTooLarge(ns[1..], i - 1);
    }
  }

  /** What becomes of numbers with dots between them and a suffix that belongs to none of them: the numbers, unless
      one is too large or a line feed comes further on in the suffix. */
  lemma ParsesExactly(ns: seq<nat>, suffix: string)
    requires ns != [] && (suffix != "" ==> !IsDigit(suffix[0]) && suffix[0] != '.' && !IsSpace(suffix[|suffix| - 1]))
    ensures Parsed(Join(Decimals(ns)) + suffix)
            == if exists i :: 0 < i < |suffix| && suffix[i] == '\n' then Failure(NoNumber)
               else if exists n :: n in ns && n > MAX_INT64 then Failure(TooLarge)
               else Success(ns)
  {
    CoreOfJoin(Decimals(ns), suffix);
    JoinIsTrimmed(Decimals(ns), suffix);
    if i :| 0 < i < |suffix| && suffix[i] == '\n' {
      assert suffix[1..][i - 1] == '\n';
    } else if n :| n in ns && n > MAX_INT64 {
      var i :| 0 <= i < |ns| && ns[i] == n;
      ValuesTooLarge(ns, i);
    } else {
      ValuesOfDecimals(ns);
    }
  }

  /** White space around a version is cut off, and nothing else. */
  lemma TrimMeans(v: string) returns (before: string, behind: string)
    ensures v == before + Trim(v) + behind
    ensures (forall i :: 0 <= i < |before| ==> IsSpace(before[i])) && forall i :: 0 <= i < |behind| ==> IsSpace(behind[i])
    ensures Trim(v) != "" ==> !IsSpace(Trim(v)[0]) && !IsSpace(Trim(v)[|Trim(v)| - 1])
  {
    before := TrimLeftMeans(v);
    behind := TrimRightMeans(TrimLeft(v));
    assert v == before + (Trim(v) + behind);
    if Trim(v) != "" {
      assert TrimLeft(v)[0] == Trim(v)[0];
    }
  }

  lemma {:induction false} TrimLeftMeans(s: string) returns (before: string)
    ensures s == before + TrimLeft(s) && forall i :: 0 <= i < |before| ==> IsSpace(before[i])
    ensures TrimLeft(s) != "" ==> !IsSpace(TrimLeft(s)[0])
  {
    before := "";
    if s != "" && IsSpace(s[0]) {
      before := TrimLeftMeans(s[1..]);
      before := [s[0]] + before;
    }
  }

  lemma {:induction false} TrimRightMeans(s: string) returns (behind: string)
    ensures s == TrimRight(s) + behind && forall i :: 0 <= i < |behind| ==> IsSpace(behind[i])
    ensures TrimRight(s) != "" ==> !IsSpace(TrimRight(s)[|TrimRight(s)| - 1])
    decreases |s|
  {
    behind := "";
    if s != "" && IsSpace(s[|s| - 1]) {
      var init, c := s[..|s| - 1], s[|s| - 1];
      var b := TrimRightMeans(init);
      behind := b + [c];
      assert s == init + [c] && TrimRight(init) + b + [c] == TrimRight(init) + behind;
      assert TrimRight(s) == TrimRight(init);
    }
  }

  /** Nothing but white space is empty; what does not begin with a digit behind its white space has no number. */
  lemma ParseErrors(v: string)
    ensures Parsed(v) == Failure(Empty) <==> forall i :: 0 <= i < |v| ==> IsSpace(v[i])
    ensures Trim(v) != "" && !IsDigit(Trim(v)[0]) ==> Parsed(v) == Failure(NoNumber)
  {
    var before, behind := TrimMeans(v);
    if Trim(v) != "" {
      assert v[|before|] == Trim(v)[0];
    }
    CoreSplits(Trim(v));
    ValuesAreNotEmpty(if Core(Trim(v)).Some? then Core(Trim(v)).value.0 else []);
  }

  lemma {:induction false} ValuesAreNotEmpty(parts: seq<string>)
    requires forall p :: p in parts ==> IsNumber(p)
    ensures Values(parts) != Failure(Empty)
  {
    if parts != [] {
      ValuesAreNotEmpty(parts[1..]);
    }
  }

  lemma JoinIsTrimmed(parts: seq<string>, suffix: string)
    requires AreNumbers(parts) && (suffix != "" ==> !IsSpace(suffix[|suffix| - 1]))
    ensures var s := Join(parts) + suffix; s != "" && Trim(s) == s
  {
    var s := Join(parts) + suffix;
    JoinEdges(parts);
    assert s[0] == Join(parts)[0];
    if suffix == "" {
      assert s == Join(parts);
    } else {
      assert s[|s| - 1] == suffix[|suffix| - 1];
    }
    TrimmedAlready(s);
  }

  lemma TrimmedAlready(s: string)
    requires s != "" && !IsSpace(s[0]) && !IsSpace(s[|s| - 1])
    ensures Trim(s) == s
  {
  }

  lemma {:induction false} JoinEdges(parts: seq<string>)
    requires AreNumbers(parts)
    ensures var s := Join(parts); s != "" && IsDigit(s[0]) && IsDigit(s[|s| - 1])
    decreases |parts|
  {
    assert IsNumber(parts[0]);
    if |parts| > 1 {
      JoinEdges(parts[1..]);
    }
  }

  // ---------------------------------------------------------------------------
  // The order
  // ---------------------------------------------------------------------------

  function At(v: seq<int>, i: nat): int {
    if i < |v| then v[i] else 0
  }

  function Longest(a: seq<int>, b: seq<int>): nat {
    if |b| > |a| then |b| else |a|
  }

  /** The comparison of the components from the `i`th to before the `n`th. */
  function CompareTo(a: seq<int>, b: seq<int>, i: nat, n: nat): (c: int)
    ensures c in {-1, 0, 1}
    decreases n - i
  {
    if i >= n then 0
    else if At(a, i) < At(b, i) then -1
    else if At(a, i) > At(b, i) then 1
    else CompareTo(a, b, i + 1, n)
  }

  function Compare(a: seq<int>, b: seq<int>): int {
    CompareTo(a, b, 0, Longest(a, b))
  }

  method CompareVersions(a: seq<int>, b: seq<int>) returns (c: int)
    ensures c == Compare(a, b)
  {
    var maxLen := |a|;
    if |b| > maxLen {
      maxLen := |b|;
    }
    for i := 0 to maxLen
      invariant Compare(a, b) == CompareTo(a, b, i, maxLen)
    {
      var av, bv := 0, 0;
      if i < |a| {
        av := a[i];
      }
      if i < |b| {
        bv := b[i];
      }
      if av < bv {
        return -1;
      }
      if av > bv {
        return 1;
      }
    }
    return 0;
  }

  /** The first component in which the two differ, missing ones counting as 0, is smaller in `a`. */
  ghost predicate Before(a: seq<int>, b: seq<int>) {
    exists i: nat :: At(a, i) < At(b, i) && (forall j: nat :: j < i ==> At(a, j) == At(b, j))
  }

  ghost predicate SameVersion(a: seq<int>, b: seq<int>) {
    forall i: nat :: At(a, i) == At(b, i)
  }

  lemma {:induction false} CompareToMeans(a: seq<int>, b: seq<int>, i: nat, n: nat)
    requires i <= n && Longest(a, b) <= n && forall j: nat :: j < i ==> At(a, j) == At(b, j)
    ensures CompareTo(a, b, i, n) == -1 ==> Before(a, b)
    ensures CompareTo(a, b, i, n) == 1 ==> Before(b, a)
    ensures CompareTo(a, b, i, n) == 0 ==> SameVersion(a, b)
    decreases n - i
  {
    if i < n && At(a, i) == At(b, i) {
      CompareToMeans(a, b, i + 1, n);
    }
  }

  /** The loop decides the order in which versions are compared component by component without end. */
  lemma CompareMeans(a: seq<int>, b: seq<int>)
    ensures Compare(a, b) == -1 <==> Before(a, b)
    ensures Compare(a, b) == 1 <==> Before(b, a)
    ensures Compare(a, b) == 0 <==> SameVersion(a, b)
  {
    CompareToMeans(a, b, 0, Longest(a, b));
    BeforeExcludes(a, b);
    BeforeExcludes(b, a);
  }

  lemma BeforeExcludes(a: seq<int>, b: seq<int>)
    ensures !(Before(a, b) && Before(b, a)) && !(Before(a, b) && SameVersion(a, b))
  {
  }

  lemma BeforeThenBefore(a: seq<int>, b: seq<int>, c: seq<int>)
    requires Before(a, b) && Before(b, c)
    ensures Before(a, c)
  {
    var i: nat :| At(a, i) < At(b, i) && (forall j: nat :: j < i ==> At(a, j) == At(b, j));
    var k: nat :| At(b, k) < At(c, k) && (forall j: nat :: j < k ==> At(b, j) == At(c, j));
    var m := if i < k then i else k;
    assert At(a, m) < At(c, m) && forall j: nat :: j < m ==> At(a, j) == At(c, j);
  }

  lemma BeforeThenSame(a: seq<int>, b: seq<int>, c: seq<int>)
    ensures Before(a, b) && SameVersion(b, c) ==> Before(a, c)
    ensures SameVersion(a, b) && Before(b, c) ==> Before(a, c)
  {
    if Before(a, b) && SameVersion(b, c) {
      var i: nat :| At(a, i) < At(b, i) && (forall j: nat :: j < i ==> At(a, j) == At(b, j));
      assert At(a, i) < At(c, i) && forall j: nat :: j < i ==> At(a, j) == At(c, j);
    }
    if SameVersion(a, b) && Before(b, c) {
      var i: nat :| At(b, i) < At(c, i) && (forall j: nat :: j < i ==> At(b, j) == At(c, j));
      assert At(a, i) < At(c, i) && forall j: nat :: j < i ==> At(a, j) == At(c, j);
    }
  }

  /** A total preorder: reflexive, with opposite results both ways round, and transitive. */
  lemma CompareIsTotalPreorder(a: seq<int>, b: seq<int>, c: seq<int>)
    ensures Compare(a, a) == 0 && Compare(b, a) == -Compare(a, b)
    ensures Compare(a, b) <= 0 && Compare(b, c) <= 0 ==>
              Compare(a, c) <= 0 && (Compare(a, c) == 0 ==> Compare(a, b) == 0 && Compare(b, c) == 0)
  {
    CompareMeans(a, a);
    CompareMeans(a, b);
    CompareMeans(b, a);
    CompareMeans(b, c);
    CompareMeans(a, c);
    BeforeExcludes(a, c);
    BeforeThenSame(a, b, c);
    if Before(a, b) && Before(b, c) {
      BeforeThenBefore(a, b, c);
    }
  }

  function Stripped(v: seq<int>): seq<int> {
    if v != [] && v[|v| - 1] == 0 then Stripped(v[..|v| - 1]) else v
  }

  lemma {:induction false} StrippedIsSame(v: seq<int>)
    ensures SameVersion(Stripped(v), v)
  {
    if v != [] && v[|v| - 1] == 0 {
      StrippedIsSame(v[..|v| - 1]);
    }
  }

  /** Two versions compare equal exactly when they are the same up to trailing zeros. */
  lemma EqualUpToTrailingZeros(a: seq<int>, b: seq<int>)
    ensures Compare(a, b) == 0 <==> Stripped(a) == Stripped(b)
  {
    CompareMeans(a, b);
    StrippedIsSame(a);
    StrippedIsSame(b);
    if SameVersion(a, b) {
      StrippedEnds(a);
      StrippedEnds(b);
      SameEnds(Stripped(a), Stripped(b));
    }
  }

  lemma {:induction false} StrippedEnds(v: seq<int>)
    ensures Stripped(v) != [] ==> Stripped(v)[|Stripped(v)| - 1] != 0
  {
    if v != [] && v[|v| - 1] == 0 {
      StrippedEnds(v[..|v| - 1]);
    }
  }

  lemma SameEnds(a: seq<int>, b: seq<int>)
    requires SameVersion(a, b)
    requires (a != [] ==> a[|a| - 1] != 0) && (b != [] ==> b[|b| - 1] != 0)
    ensures a == b
  {
    assert b != [] ==> At(a, |b| - 1) == At(b, |b| - 1);
    assert a != [] ==> At(a, |a| - 1) == At(b, |a| - 1);
    assert forall i :: 0 <= i < |a| ==> a[i] == At(a, i) == At(b, i);
  }

  // ---------------------------------------------------------------------------
  // Constraint expressions
  // ---------------------------------------------------------------------------

  const OPERATORS: seq<string> := [">=", "<=", "==", ">", "<", "="]

  function SplitToken(tok: string): (string, string) {
    var t := Trim(tok);
    if t == "" then ("", "")
    else if ">=" <= t then (">=", Trim(t[2..]))
    else if "<=" <= t then ("<=", Trim(t[2..]))
    else if "==" <= t then ("==", Trim(t[2..]))
    else if ">" <= t then (">", Trim(t[1..]))
    else if "<" <= t then ("<", Trim(t[1..]))
    else if "=" <= t then ("=", Trim(t[1..]))
    else ("", t)
  }

  /** The operator is the longest one that the token starts with, if any; the rest is the version. */
  lemma SplitTakesLongest(tok: string)
    ensures var (op, version) := SplitToken(tok);
            op <= Trim(tok) && (op == "" || op in OPERATORS)
            && (forall o :: o in OPERATORS && o <= Trim(tok) ==> |o| <= |op|)
            && version == if op == "" then Trim(tok) else Trim(Trim(tok)[|op|..])
  {
    var t := Trim(tok);
    forall o | o in OPERATORS && o <= t ensures |o| <= |SplitToken(tok).0| {
      assert |o| == 2 ==> o == ">=" || o == "<=" || o == "==";
      assert |o| == 1 ==> o == ">" || o == "<" || o == "=";
    }
  }

  method SplitComparatorToken(tok: string) returns (op: string, version: string)
    ensures (op, version) == SplitToken(tok)
  {
    var t := Trim(tok);
    if t == "" {
      return "", "";
    }
    var operators := [">=", "<=", "=="];
    for i := 0 to 3
      invariant forall j :: 0 <= j < i ==> !(operators[j] <= t)
    {
      if operators[i] <= t {
        assert (i > 0 ==> !(operators[0] <= t)) && (i > 1 ==> !(operators[1] <= t));
        return operators[i], Trim(t[2..]);
      }
    }
    assert !(operators[0] <= t) && !(operators[1] <= t) && !(operators[2] <= t);
    var single := [">", "<", "="];
    for i := 0 to 3
      invariant forall j :: 0 <= j < i ==> !(single[j] <= t)
    {
      if single[i] <= t {
        assert (i > 0 ==> !(single[0] <= t)) && (i > 1 ==> !(single[1] <= t));
        return single[i], Trim(t[1..]);
      }
    }
    assert !(single[0] <= t) && !(single[1] <= t) && !(single[2] <= t);
    return "", t;
  }

  predicate Holds(op: string, cmp: int) {
    if op == ">" then cmp > 0
    else if op == ">=" then cmp >= 0
    else if op == "<" then cmp < 0
    else if op == "<=" then cmp <= 0
    else if op == "==" || op == "=" then cmp == 0
    else if op == "" then cmp == 0
    else false
  }

  predicate TokenHolds(version: seq<int>, tok: string) {
    var (op, reference) := SplitToken(tok);
    match Parsed(reference)
    case Success(r) => Holds(op, Compare(version, r))
    case Failure(_) => false
  }

  predicate AllHold(version: seq<int>, tokens: seq<string>) {
    tokens == [] || (TokenHolds(version, tokens[0]) && AllHold(version, tokens[1..]))
  }

  predicate Matches(version: seq<int>, expr: string) {
    Trim(expr) != "" && AllHold(version, Fields(Trim(expr)))
  }

  /** One pass of the loop over the tokens. */
  method CheckToken(version: seq<int>, tok: string) returns (ok: bool)
    ensures ok <==> TokenHolds(version, tok)
  {
    var op, reference := SplitComparatorToken(tok);
    var parsed := ParseVersion(reference);
    if parsed.Failure? {
      return false;
    }
    var cmp := CompareVersions(version, parsed.value);
    return Holds(op, cmp);
  }

  method MatchesVersionConstraint(version: seq<int>, expr: string) returns (ok: bool)
    ensures ok <==> Matches(version, expr)
  {
    var e := Trim(expr);
    if e == "" {
      return false;
    }
    var tokens := Fields(e);
    for i := 0 to |tokens|
      invariant AllHold(version, tokens) == AllHold(version, tokens[i..])
    {
      assert tokens[i..][0] == tokens[i] && tokens[i..][1..] == tokens[i + 1..];
      ok := CheckToken(version, tokens[i]);
      if !ok {
        return false;
      }
    }
    return true;
  }

  lemma TokenIsConvex(u: seq<int>, v: seq<int>, w: seq<int>, tok: string)
    requires Compare(u, v) <= 0 && Compare(v, w) <= 0 && TokenHolds(u, tok) && TokenHolds(w, tok)
    ensures TokenHolds(v, tok)
  {
    var r := Parsed(SplitToken(tok).1).value;
    CompareIsTotalPreorder(u, v, r);
    CompareIsTotalPreorder(r, u, v);
    CompareIsTotalPreorder(u, r, v);
    CompareIsTotalPreorder(v, r, w);
    CompareIsTotalPreorder(v, w, r);
    CompareIsTotalPreorder(w, r, v);
  }

  /** The versions that any expression accepts have no gap: whatever lies between two accepted versions
      is accepted. */
  lemma AcceptedVersionsAreConvex(u: seq<int>, v: seq<int>, w: seq<int>, expr: string)
    requires Compare(u, v) <= 0 && Compare(v, w) <= 0 && Matches(u, expr) && Matches(w, expr)
    ensures Matches(v, expr)
  {
    TokensAreConvex(u, v, w, Fields(Trim(expr)));
  }

  lemma {:induction false} TokensAreConvex(u: seq<int>, v: seq<int>, w: seq<int>, tokens: seq<string>)
    requires Compare(u, v) <= 0 && Compare(v, w) <= 0 && AllHold(u, tokens) && AllHold(w, tokens)
    ensures AllHold(v, tokens)
  {
    if tokens != [] {
      TokenIsConvex(u, v, w, tokens[0]);
      TokensAreConvex(u, v, w, tokens[1..]);
    }
  }

  /** An expression with a token whose version cannot be read accepts nothing. */
  lemma {:induction false} EveryTokenMustParse(version: seq<int>, tokens: seq<string>)
    requires AllHold(version, tokens)
    ensures forall t :: t in tokens ==> Parsed(SplitToken(t).1).Success?
  {
    if tokens != [] {
      EveryTokenMustParse(version, tokens[1..]);
      assert tokens == [tokens[0]] + tokens[1..];
    }
  }

  /** Versions that compare equal satisfy the same expressions. */
  lemma EqualVersionsMatchAlike(u: seq<int>, v: seq<int>, expr: string)
    requires Compare(u, v) == 0
    ensures Matches(u, expr) <==> Matches(v, expr)
  {
    CompareIsTotalPreorder(u, v, u);
    if Matches(u, expr) {
      AcceptedVersionsAreConvex(u, v, u, expr);
    }
    if Matches(v, expr) {
      AcceptedVersionsAreConvex(v, u, v, expr);
    }
  }

  // ---------------------------------------------------------------------------
  // What expressions mean
  // ---------------------------------------------------------------------------

  /** A list of components as it is written. */
  function Format(ns: seq<nat>): string {
    Join(Decimals(ns))
  }

  predicate Formattable(ns: seq<nat>) {
    ns != [] && forall n :: n in ns ==> n <= MAX_INT64
  }

  predicate IsWord(s: string) {
    s != "" && forall i :: 0 <= i < |s| ==> !IsSpace(s[i])
  }

  lemma {:induction false} JoinIsWord(parts: seq<string>)
    requires AreNumbers(parts)
    ensures IsWord(Join(parts))
    decreases |parts|
  {
    assert IsNumber(parts[0]);
    if |parts| > 1 {
      JoinIsWord(parts[1..]);
    }
  }

  lemma SplitOf(op: string, f: string)
    requires op == "" || op in OPERATORS
    requires f != "" && IsDigit(f[0]) && !IsSpace(f[|f| - 1])
    ensures SplitToken(op + f) == (op, f)
  {
    var t := op + f;
    assert t[|t| - 1] == f[|f| - 1] && t[|op|] == f[0] && t[|op|..] == f;
    TrimmedAlready(t);
    TrimmedAlready(f);
    if op == "" {
      assert t == f && !(">" <= t) && !("<" <= t) && !("=" <= t);
    }
  }

  /** What an operator in front of `w` demands of `v`, component by component. */
  ghost predicate Demands(op: string, v: seq<int>, w: seq<int>) {
    if op == ">" then Before(w, v)
    else if op == ">=" then !Before(v, w)
    else if op == "<" then Before(v, w)
    else if op == "<=" then !Before(w, v)
    else SameVersion(v, w)
  }

  lemma HoldsMeans(op: string, v: seq<int>, w: seq<int>)
    requires op == "" || op in OPERATORS
    ensures Holds(op, Compare(v, w)) <==> Demands(op, v, w)
  {
    CompareMeans(v, w);
    BeforeExcludes(v, w);
    BeforeExcludes(w, v);
  }

  /** A token made of an operator and a version means what it says. */
  lemma TokenMeans(v: seq<int>, op: string, ns: seq<nat>)
    requires (op == "" || op in OPERATORS) && Formattable(ns)
    ensures TokenHolds(v, op + Format(ns)) <==> Demands(op, v, ns)
  {
    var f := Format(ns);
    JoinEdges(Decimals(ns));
    SplitOf(op, f);
    ParseUndoesFormat(ns, "");
    assert f + "" == f;
    HoldsMeans(op, v, ns);
  }

  lemma WordLengthOf(word: string, rest: string)
    requires IsWord(word) && (rest != "" ==> IsSpace(rest[0]))
    ensures WordLength(word + rest) == |word|
  {
    var s := word + rest;
    assert forall i :: 0 <= i < |word| ==> s[i] == word[i];
    assert rest != "" ==> s[|word|] == rest[0];
  }

  lemma TokenIsWord(op: string, ns: seq<nat>)
    requires (op == "" || op in OPERATORS) && ns != []
    ensures IsWord(op + Format(ns))
  {
    JoinIsWord(Decimals(ns));
  }

  predicate Blank(s: string) {
    forall i :: 0 <= i < |s| ==> IsSpace(s[i])
  }

  /** Words, each with a gap in front of it. */
  function Spread(gaps: seq<string>, words: seq<string>): string
    requires |gaps| == |words|
  {
    if words == [] then "" else gaps[0] + (words[0] + Spread(gaps[1..], words[1..]))
  }

  /** The gaps are white space, and only the first one may be empty. */
  predicate AreGaps(gaps: seq<string>) {
    forall i :: 0 <= i < |gaps| ==> Blank(gaps[i]) && (i > 0 ==> gaps[i] != "")
  }

  lemma {:induction false} FieldsOfBlank(gap: string, rest: string)
    requires Blank(gap)
    ensures Fields(gap + rest) == Fields(rest)
  {
    if gap == "" {
      assert gap + rest == rest;
    } else {
      FieldsOfBlank(gap[1..], rest);
      assert (gap + rest)[1..] == gap[1..] + rest && (gap + rest)[0] == gap[0];
    }
  }

  /** Cutting at white space gives the words back. */
  lemma {:induction false} FieldsOfSpread(gaps: seq<string>, words: seq<string>, last: string)
    requires |gaps| == |words| && AreGaps(gaps) && Blank(last) && forall i :: 0 <= i < |words| ==> IsWord(words[i])
    ensures Fields(Spread(gaps, words) + last) == words
    decreases |words|
  {
    if words == [] {
      FieldsOfBlank(last, "");
      assert last + "" == last && Spread(gaps, words) + last == last;
    } else {
      var rest := Spread(gaps[1..], words[1..]) + last;
      FieldsOfSpread(gaps[1..], words[1..], last);
      SpreadBegins(gaps[1..], words[1..], last);
      assert Spread(gaps, words) + last == gaps[0] + (words[0] + rest);
      FieldsOfBlank(gaps[0], words[0] + rest);
      FieldsOfWord(words[0], rest);
      assert words == [words[0]] + words[1..];
    }
  }

  /** After a word comes white space. */
  lemma SpreadBegins(gaps: seq<string>, words: seq<string>, last: string)
    requires |gaps| == |words| && Blank(last) && forall i :: 0 <= i < |gaps| ==> Blank(gaps[i]) && gaps[i] != ""
    ensures var s := Spread(gaps, words) + last; s != "" ==> IsSpace(s[0])
  {
    if words != [] {
      assert (Spread(gaps, words) + last)[0] == gaps[0][0];
    }
  }

  lemma {:induction false} FieldsBeforeSpace(s: string, c: char)
    requires IsSpace(c)
    ensures Fields(s + [c]) == Fields(s)
    decreases |s|
  {
    if s == "" {
      assert s + [c] == [c] && [c][1..] == "";
    } else if IsSpace(s[0]) {
      FieldsBeforeSpace(s[1..], c);
      assert (s + [c])[1..] == s[1..] + [c];
    } else {
      var n := WordLength(s);
      var word, rest := s[..n], s[n..];
      assert s == word + rest && s + [c] == word + (rest + [c]);
      FieldsOfWord(word, rest);
      FieldsOfWord(word, rest + [c]);
      FieldsBeforeSpace(rest, c);
    }
  }

  lemma {:induction false} FieldsOfTrimLeft(s: string)
    ensures Fields(TrimLeft(s)) == Fields(s)
  {
    if s != "" && IsSpace(s[0]) {
      FieldsOfTrimLeft(s[1..]);
    }
  }

  lemma {:induction false} FieldsOfTrimRight(s: string)
    ensures Fields(TrimRight(s)) == Fields(s)
    decreases |s|
  {
    if s != "" && IsSpace(s[|s| - 1]) {
      var init, c := s[..|s| - 1], s[|s| - 1];
      FieldsOfTrimRight(init);
      FieldsBeforeSpace(init, c);
      assert init + [c] == s;
      assert TrimRight(s) == TrimRight(init);
    }
  }

  lemma FieldsOfTrim(s: string)
    ensures Fields(Trim(s)) == Fields(s)
  {
    FieldsOfTrimLeft(s);
    FieldsOfTrimRight(TrimLeft(s));
  }

  lemma FieldsOfWord(word: string, rest: string)
    requires IsWord(word) && (rest != "" ==> IsSpace(rest[0]))
    ensures Fields(word + rest) == [word] + Fields(rest)
  {
    WordLengthOf(word, rest);
    assert (word + rest)[..|word|] == word && (word + rest)[|word|..] == rest && (word + rest)[0] == word[0];
  }

  /** An operator, or none, and the components of a version. */
  type Bound = (string, seq<nat>)

  predicate IsBound(b: Bound) {
    (b.0 == "" || b.0 in OPERATORS) && Formattable(b.1)
  }

  function Tokens(bounds: seq<Bound>): (words: seq<string>)
    ensures |words| == |bounds|
  {
    if bounds == [] then [] else [bounds[0].0 + Format(bounds[0].1)] + Tokens(bounds[1..])
  }

  lemma {:induction false} TokensAreWords(bounds: seq<Bound>, i: nat)
    requires i < |bounds| && forall b :: b in bounds ==> IsBound(b)
    ensures IsWord(Tokens(bounds)[i])
  {
    assert IsBound(bounds[0]);
    if i == 0 {
      TokenIsWord(bounds[0].0, bounds[0].1);
    } else {
      TokensAreWords(bounds[1..], i - 1);
    }
  }

  ghost predicate AllDemand(v: seq<int>, bounds: seq<Bound>) {
    bounds == [] || (Demands(bounds[0].0, v, bounds[0].1) && AllDemand(v, bounds[1..]))
  }

  lemma {:induction false} AllDemandMeans(v: seq<int>, bounds: seq<Bound>)
    ensures AllDemand(v, bounds) <==> forall b :: b in bounds ==> Demands(b.0, v, b.1)
  {
    if bounds != [] {
      AllDemandMeans(v, bounds[1..]);
      assert bounds == [bounds[0]] + bounds[1..];
    }
  }

  lemma OneMoreToken(v: seq<int>, b: Bound, words: seq<string>)
    requires IsBound(b)
    ensures AllHold(v, [b.0 + Format(b.1)] + words) <==> Demands(b.0, v, b.1) && AllHold(v, words)
  {
    TokenMeans(v, b.0, b.1);
    assert ([b.0 + Format(b.1)] + words)[1..] == words;
  }

  lemma {:induction false} TokensMean(v: seq<int>, bounds: seq<Bound>)
    requires forall b :: b in bounds ==> IsBound(b)
    ensures AllHold(v, Tokens(bounds)) <==> AllDemand(v, bounds)
  {
    if bounds != [] {
      assert IsBound(bounds[0]);
      OneMoreToken(v, bounds[0], Tokens(bounds[1..]));
      TokensMean(v, bounds[1..]);
    }
  }

  /** Any number of operators with versions, with any white space between and around them, demand all that each of
      them does. */
  lemma ExpressionMeans(v: seq<int>, bounds: seq<Bound>, gaps: seq<string>, last: string)
    requires bounds != [] && forall b :: b in bounds ==> IsBound(b)
    requires |gaps| == |bounds| && AreGaps(gaps) && Blank(last)
    ensures Matches(v, Spread(gaps, Tokens(bounds)) + last) <==> forall b :: b in bounds ==> Demands(b.0, v, b.1)
  {
    var words := Tokens(bounds);
    forall i | 0 <= i < |words| ensures IsWord(words[i]) {
      TokensAreWords(bounds, i);
    }
    FieldsOfSpread(gaps, words, last);
    FieldsOfTrim(Spread(gaps, words) + last);
    TokensMean(v, bounds);
    AllDemandMeans(v, bounds);
  }

  /** For example ">=1.17 <=1.17.1" is the closed interval between the two versions. */
  lemma RangeMeans(v: seq<int>, op: string, ns: seq<nat>, op': string, ns': seq<nat>)
    requires op in OPERATORS && op' in OPERATORS && Formattable(ns) && Formattable(ns')
    ensures Matches(v, (op + Format(ns)) + " " + (op' + Format(ns'))) <==> Demands(op, v, ns) && Demands(op', v, ns')
  {
    var b, b' := (op, ns), (op', ns');
    ExpressionMeans(v, [b, b'], ["", " "], "");
    TwoTokens(b, b');
    assert b in [b, b'] && b' in [b, b'];
  }

  lemma TwoTokens(b: Bound, b': Bound)
    ensures Spread(["", " "], Tokens([b, b'])) + "" == (b.0 + Format(b.1)) + " " + (b'.0 + Format(b'.1))
  {
    assert [b, b'][1..] == [b'] && [b'][1..] == [] && ["", " "][1..] == [" "] && [" "][1..] == [];
    var w, w' := b.0 + Format(b.1), b'.0 + Format(b'.1);
    assert Tokens([b']) == [w'] && Tokens([b, b']) == [w, w'];
    assert [w, w'][1..] == [w'] && [w'][1..] == [];
    assert Spread([" "], [w']) == " " + w';
    assert Spread(["", " "], [w, w']) == w + (" " + w');
  }

  // ---------------------------------------------------------------------------
  // The image for a version
  // ---------------------------------------------------------------------------

  /** A mapping lists its keys and expressions in the order in which the range over it visits them. */
  type Mapping = seq<(string, string)>

  datatype Software = Software(dockerImages: map<string, string>, mappings: seq<Mapping>)

  datatype ImageError = NoSoftware | NoImages | Ambiguous | InvalidVersion(e: ParseError) | NoVariant(key: string) | NoMapping

  predicate Selects(version: seq<int>, entry: (string, string)) {
    entry.0 != "default" && Matches(version, entry.1)
  }

  /** The position of the first entry that selects the version, or the number of entries. */
  function FirstSelected(version: seq<int>, entries: Mapping): (n: nat)
    ensures n <= |entries|
  {
    if entries == [] || Selects(version, entries[0]) then 0 else 1 + FirstSelected(version, entries[1..])
  }

  /** The last default among the entries, or nothing. */
  function DefaultOf(entries: Mapping): string {
    if entries == [] then ""
    else if entries[|entries| - 1].0 == "default" then entries[|entries| - 1].1
    else DefaultOf(entries[..|entries| - 1])
  }

  function AllEntries(mappings: seq<Mapping>): Mapping {
    if mappings == [] then [] else mappings[0] + AllEntries(mappings[1..])
  }

  /** What the choice comes to: the first entry that selects the version wins, the default comes last. */
  ghost predicate IsImageFor(software: Software, version: seq<int>, r: Result<string, ImageError>) {
    var entries := AllEntries(software.mappings);
    var n := FirstSelected(version, entries);
    if n < |entries| then
      r == if entries[n].0 in software.dockerImages then Success(software.dockerImages[entries[n].0])
           else Failure(NoVariant(entries[n].0))
    else
      var target := DefaultOf(entries);
      r == if target == "" then Failure(NoMapping)
           else if target in software.dockerImages then Success(software.dockerImages[target])
           else Success(target)
  }

  ghost predicate ImageIs(software: Option<Software>, version: string, r: Result<string, ImageError>) {
    match software
    case None => r == Failure(NoSoftware)
    case Some(s) =>
      if |s.dockerImages| == 0 then r == Failure(NoImages)
      else if |s.mappings| == 0 then
        if |s.dockerImages| == 1 then r.Success? && s.dockerImages.Values == {r.value} else r == Failure(Ambiguous)
      else match Parsed(version)
        case Failure(e) => r == Failure(InvalidVersion(e))
        case Success(v) => IsImageFor(s, v, r)
  }

  lemma {:induction false} FirstSelectedIsFirst(version: seq<int>, entries: Mapping)
    ensures var n := FirstSelected(version, entries);
            (n < |entries| ==> Selects(version, entries[n]))
            && forall i :: 0 <= i < n ==> !Selects(version, entries[i])
  {
    if entries != [] && !Selects(version, entries[0]) {
      FirstSelectedIsFirst(version, entries[1..]);
      var n := FirstSelected(version, entries);
      forall i | 0 <= i < n ensures !Selects(version, entries[i]) {
        if i > 0 {
          assert entries[i] == entries[1..][i - 1];
        }
      }
    }
  }

  lemma {:induction false} FirstSelectedAppend(version: seq<int>, seen: Mapping, rest: Mapping)
    requires FirstSelected(version, seen) == |seen|
    ensures FirstSelected(version, seen + rest) == |seen| + FirstSelected(version, rest)
  {
    if seen == [] {
      assert seen + rest == rest;
    } else {
      assert (seen + rest)[1..] == seen[1..] + rest;
      FirstSelectedAppend(version, seen[1..], rest);
    }
  }

  lemma {:induction false} EqualVersionsSelectAlike(u: seq<int>, v: seq<int>, entries: Mapping)
    requires Compare(u, v) == 0
    ensures FirstSelected(u, entries) == FirstSelected(v, entries)
  {
    if entries != [] {
      EqualVersionsMatchAlike(u, v, entries[0].1);
      EqualVersionsSelectAlike(u, v, entries[1..]);
    }
  }

  // By position in the list of mappings

  predicate IsEntry(mappings: seq<Mapping>, i: nat, k: nat) {
    i < |mappings| && k < |mappings[i]|
  }

  /** Entry `l` of mapping `j` comes before entry `k` of mapping `i`. */
  predicate Earlier(j: nat, l: nat, i: nat, k: nat) {
    j < i || (j == i && l < k)
  }

  /** An entry that is no default and whose expression accepts the version. */
  predicate Accepts(mappings: seq<Mapping>, version: seq<int>, i: nat, k: nat)
    requires IsEntry(mappings, i, k)
  {
    mappings[i][k].0 != "default" && Matches(version, mappings[i][k].1)
  }

  predicate IsDefault(mappings: seq<Mapping>, i: nat, k: nat)
    requires IsEntry(mappings, i, k)
  {
    mappings[i][k].0 == "default"
  }

  ghost predicate FirstAccepting(mappings: seq<Mapping>, version: seq<int>, i: nat, k: nat) {
    IsEntry(mappings, i, k) && Accepts(mappings, version, i, k)
    && forall j: nat, l: nat :: IsEntry(mappings, j, l) && Earlier(j, l, i, k) ==> !Accepts(mappings, version, j, l)
  }

  ghost predicate NoneAccepts(mappings: seq<Mapping>, version: seq<int>) {
    forall j: nat, l: nat :: IsEntry(mappings, j, l) ==> !Accepts(mappings, version, j, l)
  }

  ghost predicate LastDefault(mappings: seq<Mapping>, i: nat, k: nat) {
    IsEntry(mappings, i, k) && IsDefault(mappings, i, k)
    && forall j: nat, l: nat :: IsEntry(mappings, j, l) && Earlier(i, k, j, l) ==> !IsDefault(mappings, j, l)
  }

  ghost predicate NoDefault(mappings: seq<Mapping>) {
    forall j: nat, l: nat :: IsEntry(mappings, j, l) ==> !IsDefault(mappings, j, l)
  }

  /** How many entries come before mapping `i`. */
  function Offset(mappings: seq<Mapping>, i: nat): nat
    requires i <= |mappings|
  {
    if i == 0 then 0 else |mappings[0]| + Offset(mappings[1..], i - 1)
  }

  lemma {:induction false} EntryAt(mappings: seq<Mapping>, i: nat, k: nat)
    requires IsEntry(mappings, i, k)
    ensures var n := Offset(mappings, i) + k; n < |AllEntries(mappings)| && AllEntries(mappings)[n] == mappings[i][k]
    decreases i
  {
    if i > 0 {
      EntryAt(mappings[1..], i - 1, k);
    }
  }

  lemma {:induction false} PositionOf(mappings: seq<Mapping>, n: nat) returns (i: nat, k: nat)
    requires n < |AllEntries(mappings)|
    ensures IsEntry(mappings, i, k) && n == Offset(mappings, i) + k
  {
    if n < |mappings[0]| {
      i, k := 0, n;
    } else {
      i, k := PositionOf(mappings[1..], n - |mappings[0]|);
      i := i + 1;
    }
  }

  lemma {:induction false} OffsetGrows(mappings: seq<Mapping>, j: nat, i: nat)
    requires j < i <= |mappings|
    ensures Offset(mappings, j) + |mappings[j]| <= Offset(mappings, i)
    decreases j
  {
    if j > 0 {
      OffsetGrows(mappings[1..], j - 1, i - 1);
    }
  }

  lemma EarlierMeans(mappings: seq<Mapping>, j: nat, l: nat, i: nat, k: nat)
    requires IsEntry(mappings, j, l) && IsEntry(mappings, i, k)
    ensures Earlier(j, l, i, k) <==> Offset(mappings, j) + l < Offset(mappings, i) + k
  {
    if j < i {
      OffsetGrows(mappings, j, i);
    } else if i < j {
      OffsetGrows(mappings, i, j);
    }
  }

  lemma FirstIs(version: seq<int>, entries: Mapping, n: nat)
    requires n <= |entries| && forall m :: 0 <= m < n ==> !Selects(version, entries[m])
    requires n < |entries| ==> Selects(version, entries[n])
    ensures FirstSelected(version, entries) == n
  {
    FirstSelectedIsFirst(version, entries);
  }

  /** An entry that the list of all entries has at position `m` is rejected if it is where it stands. */
  lemma RejectedAt(mappings: seq<Mapping>, version: seq<int>, j: nat, l: nat, m: nat)
    requires IsEntry(mappings, j, l) && m == Offset(mappings, j) + l && !Accepts(mappings, version, j, l)
    ensures m < |AllEntries(mappings)| && !Selects(version, AllEntries(mappings)[m])
  {
    EntryAt(mappings, j, l);
  }

  lemma FirstByPosition(mappings: seq<Mapping>, version: seq<int>, i: nat, k: nat)
    requires FirstAccepting(mappings, version, i, k)
    ensures var entries := AllEntries(mappings);
            FirstSelected(version, entries) < |entries| && entries[FirstSelected(version, entries)] == mappings[i][k]
  {
    var entries := AllEntries(mappings);
    var n := Offset(mappings, i) + k;
    EntryAt(mappings, i, k);
    forall m | 0 <= m < n ensures !Selects(version, entries[m]) {
      var j, l := PositionOf(mappings, m);
      EarlierMeans(mappings, j, l, i, k);
      RejectedAt(mappings, version, j, l, m);
    }
    FirstIs(version, entries, n);
  }

  lemma NoneByPosition(mappings: seq<Mapping>, version: seq<int>)
    requires NoneAccepts(mappings, version)
    ensures FirstSelected(version, AllEntries(mappings)) == |AllEntries(mappings)|
  {
    var entries := AllEntries(mappings);
    forall m | 0 <= m < |entries| ensures !Selects(version, entries[m]) {
      var j, l := PositionOf(mappings, m);
      RejectedAt(mappings, version, j, l, m);
    }
    FirstIs(version, entries, |entries|);
  }

  lemma {:induction false} DefaultIsLast(entries: Mapping, n: nat)
    ensures n < |entries| && entries[n].0 == "default" && (forall m :: n < m < |entries| ==> entries[m].0 != "default")
            ==> DefaultOf(entries) == entries[n].1
    ensures (forall m :: 0 <= m < |entries| ==> entries[m].0 != "default") ==> DefaultOf(entries) == ""
    decreases |entries|
  {
    if entries != [] && entries[|entries| - 1].0 != "default" {
      DefaultIsLast(entries[..|entries| - 1], n);
    }
  }

  lemma DefaultByPosition(mappings: seq<Mapping>, i: nat, k: nat)
    ensures LastDefault(mappings, i, k) ==> DefaultOf(AllEntries(mappings)) == mappings[i][k].1
    ensures NoDefault(mappings) ==> DefaultOf(AllEntries(mappings)) == ""
  {
    var entries := AllEntries(mappings);
    if LastDefault(mappings, i, k) {
      var n := Offset(mappings, i) + k;
      EntryAt(mappings, i, k);
      forall m | n < m < |entries| ensures entries[m].0 != "default" {
        var j, l := PositionOf(mappings, m);
        EntryAt(mappings, j, l);
        EarlierMeans(mappings, i, k, j, l);
        assert !IsDefault(mappings, j, l);
      }
      DefaultIsLast(entries, n);
    }
    if NoDefault(mappings) {
      forall m | 0 <= m < |entries| ensures entries[m].0 != "default" {
        var j, l := PositionOf(mappings, m);
        EntryAt(mappings, j, l);
        assert !IsDefault(mappings, j, l);
      }
      DefaultIsLast(entries, 0);
    }
  }

  /** The image is that of the first accepting entry in the order of the list and, within a mapping, of the range.
      If none accepts, the last default in that order decides: an image key, or an image written out, or nothing
      if it is empty; and without a default there is no image. */
  lemma ImageByPosition(s: Software, version: seq<int>, i: nat, k: nat, r: Result<string, ImageError>)
    requires IsImageFor(s, version, r)
    ensures FirstAccepting(s.mappings, version, i, k) ==>
              r == if s.mappings[i][k].0 in s.dockerImages then Success(s.dockerImages[s.mappings[i][k].0])
                   else Failure(NoVariant(s.mappings[i][k].0))
    ensures NoneAccepts(s.mappings, version) && LastDefault(s.mappings, i, k) ==>
              r == if s.mappings[i][k].1 == "" then Failure(NoMapping)
                   else if s.mappings[i][k].1 in s.dockerImages then Success(s.dockerImages[s.mappings[i][k].1])
                   else Success(s.mappings[i][k].1)
    ensures NoneAccepts(s.mappings, version) && NoDefault(s.mappings) ==> r == Failure(NoMapping)
  {
    if FirstAccepting(s.mappings, version, i, k) {
      FirstByPosition(s.mappings, version, i, k);
    }
    if NoneAccepts(s.mappings, version) {
      NoneByPosition(s.mappings, version);
      DefaultByPosition(s.mappings, i, k);
    }
  }

  /** Versions that compare equal, however they are written, get the same image or the same error. */
  lemma EqualVersionsGetSameImage(software: Option<Software>, v: string, w: string,
                                  r: Result<string, ImageError>, q: Result<string, ImageError>)
    requires Parsed(v).Success? && Parsed(w).Success? && Compare(Parsed(v).value, Parsed(w).value) == 0
    requires ImageIs(software, v, r) && ImageIs(software, w, q)
    ensures r == q
  {
    if software.Some? {
      var s := software.value;
      if |s.dockerImages| == 1 && |s.mappings| == 0 {
        assert r.value in s.dockerImages.Values;
      } else {
        EqualVersionsSelectAlike(Parsed(v).value, Parsed(w).value, AllEntries(s.mappings));
      }
    }
  }

  /** A version between two others that the same entry selects is selected by that entry or an earlier one. */
  lemma SelectionBetween(u: seq<int>, v: seq<int>, w: seq<int>, entries: Mapping)
    requires Compare(u, v) <= 0 && Compare(v, w) <= 0 && FirstSelected(u, entries) == FirstSelected(w, entries)
    ensures FirstSelected(v, entries) <= FirstSelected(u, entries)
  {
    var n := FirstSelected(u, entries);
    if n < |entries| {
      FirstSelectedIsFirst(u, entries);
      FirstSelectedIsFirst(w, entries);
      FirstSelectedIsFirst(v, entries);
      AcceptedVersionsAreConvex(u, v, w, entries[n].1);
    }
  }

  /** The range over one mapping: nothing was selected in `seen`, and what is left follows. */
  method ScanMapping(version: seq<int>, mapping: Mapping, ghost seen: Mapping, soFar: string)
    returns (found: Option<string>, defaultTarget: string)
    requires FirstSelected(version, seen) == |seen| && soFar == DefaultOf(seen)
    ensures var entries := seen + mapping;
            var n := FirstSelected(version, entries);
            match found
            case Some(key) => n < |entries| && entries[n].0 == key
            case None => n == |entries| && defaultTarget == DefaultOf(entries)
  {
    defaultTarget := soFar;
    assert seen + mapping[..0] == seen;
    for i := 0 to |mapping|
      invariant FirstSelected(version, seen + mapping[..i]) == |seen| + i
      invariant defaultTarget == DefaultOf(seen + mapping[..i])
    {
      var (key, expr) := mapping[i];
      SeenOneMore(version, seen, mapping, i);
      if key == "default" {
        defaultTarget := expr;
        continue;
      }
      if expr == "" {
        continue;
      }
      var ok := MatchesVersionConstraint(version, expr);
      if ok {
        return Some(key), defaultTarget;
      }
    }
    assert mapping[..|mapping|] == mapping;
    return None, defaultTarget;
  }

  lemma SeenOneMore(version: seq<int>, seen: Mapping, mapping: Mapping, i: nat)
    requires i < |mapping| && FirstSelected(version, seen + mapping[..i]) == |seen| + i
    ensures var next := seen + mapping[..i + 1];
            if Selects(version, mapping[i])
            then FirstSelected(version, seen + mapping) == |seen| + i
            else FirstSelected(version, next) == |next|
    ensures DefaultOf(seen + mapping[..i + 1])
            == if mapping[i].0 == "default" then mapping[i].1 else DefaultOf(seen + mapping[..i])
  {
    var now := seen + mapping[..i];
    assert seen + mapping == now + mapping[i..];
    assert seen + mapping[..i + 1] == now + [mapping[i]];
    assert (now + [mapping[i]])[..|now|] == now;
    FirstSelectedAppend(version, now, mapping[i..]);
    FirstSelectedAppend(version, now, [mapping[i]]);
  }

  method ImageForVersion(software: Option<Software>, version: string) returns (r: Result<string, ImageError>)
    ensures ImageIs(software, version, r)
  {
    if software == None {
      return Failure(NoSoftware);
    }
    var s := software.value;
    if |s.dockerImages| == 0 {
      return Failure(NoImages);
    }
    if |s.mappings| == 0 {
      if |s.dockerImages| == 1 {
        var key :| key in s.dockerImages;
        OnlyImage(s.dockerImages, key);
        return Success(s.dockerImages[key]);
      }
      return Failure(Ambiguous);
    }
    var parsed := ParseVersion(version);
    if parsed.Failure? {
      return Failure(InvalidVersion(parsed.error));
    }
    r := ChooseImage(s, parsed.value);
  }

  lemma OnlyImage(images: map<string, string>, key: string)
    requires |images| == 1 && key in images
    ensures images.Values == {images[key]}
  {
    assert |images.Keys - {key}| == 0;
    assert images.Keys == {key};
  }

  method ChooseImage(software: Software, version: seq<int>) returns (r: Result<string, ImageError>)
    ensures IsImageFor(software, version, r)
  {
    var defaultTarget := "";
    ghost var entries := AllEntries(software.mappings);
    ghost var seen: Mapping := [];
    for i := 0 to |software.mappings|
      invariant entries == seen + AllEntries(software.mappings[i..])
      invariant FirstSelected(version, seen) == |seen| && defaultTarget == DefaultOf(seen)
    {
      var mapping := software.mappings[i];
      ghost var rest := AllEntries(software.mappings[i + 1..]);
      assert software.mappings[i..][1..] == software.mappings[i + 1..];
      assert entries == seen + mapping + rest;
      var found;
      found, defaultTarget := ScanMapping(version, mapping, seen, defaultTarget);
      if found.Some? {
        FoundEarly(version, seen + mapping, rest);
        if found.value !in software.dockerImages {
          return Failure(NoVariant(found.value));
        }
        return Success(software.dockerImages[found.value]);
      }
      seen := seen + mapping;
    }
    assert seen == entries;
    if defaultTarget != "" {
      if defaultTarget in software.dockerImages {
        return Success(software.dockerImages[defaultTarget]);
      }
      return Success(defaultTarget);
    }
    return Failure(NoMapping);
  }

  lemma FoundEarly(version: seq<int>, seen: Mapping, rest: Mapping)
    requires FirstSelected(version, seen) < |seen|
    ensures FirstSelected(version, seen + rest) == FirstSelected(version, seen)
  {
    var n, m := FirstSelected(version, seen), FirstSelected(version, seen + rest);
    FirstSelectedIsFirst(version, seen);
    FirstSelectedIsFirst(version, seen + rest);
    assert forall i :: 0 <= i < |seen| ==> (seen + rest)[i] == seen[i];
    assert m <= n;
  }
}
