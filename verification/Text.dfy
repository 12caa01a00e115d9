/** The parts of Go's strings and strconv packages that the parsers rely on, on
    sequences of characters, with the facts the round trips need. */
module Text {
  import opened Basics

  /** unicode.IsSpace. */
  predicate IsSpace(c: char) {
    || c == ' ' || '\t' <= c <= '\r'
    || c == '\U{85}' || c == '\U{A0}' || c == '\U{1680}' || '\U{2000}' <= c <= '\U{200A}'
    || c == '\U{2028}' || c == '\U{2029}' || c == '\U{202F}' || c == '\U{205F}' || c == '\U{3000}'
  }

  ghost predicate SpaceFree(s: string) {
    forall i | 0 <= i < |s| :: !IsSpace(s[i])
  }

  /** A word: what strings.Fields can return. */
  ghost predicate Word(s: string) {
    s != "" && SpaceFree(s)
  }

  /* ---------------------------------------------------------------- Split, Join */

  /** strings.Split with a one-character separator. */
  function Split(s: string, sep: char): (parts: seq<string>)
    ensures |parts| >= 1
  {
    if s == "" then [""] else ConsPart(s[0], Split(s[1..], sep), sep)
  }

  /** One more character in front. */
  function ConsPart(c: char, parts: seq<string>, sep: char): seq<string>
    requires |parts| >= 1
  {
    if c == sep then [""] + parts else [[c] + parts[0]] + parts[1..]
  }

  /** One more character behind. */
  function SnocPart(parts: seq<string>, c: char, sep: char): seq<string>
    requires |parts| >= 1
  {
    if c == sep then parts + [""] else parts[..|parts| - 1] + [parts[|parts| - 1] + [c]]
  }

  /** strings.Join with a one-character separator. */
  function Join(parts: seq<string>, sep: char): string {
    if |parts| == 0 then ""
    else if |parts| == 1 then parts[0]
    else parts[0] + [sep] + Join(parts[1..], sep)
  }

  lemma {:induction false} SplitConcat(a: string, b: string, sep: char)
    ensures Split(a + [sep] + b, sep) == Split(a, sep) + Split(b, sep)
  {
    var s := a + [sep] + b;
    if a == "" {
      assert s[1..] == b;
    } else {
      assert s[1..] == a[1..] + [sep] + b;
      SplitConcat(a[1..], b, sep);
    }
  }

  lemma ConsSnoc(a: char, parts: seq<string>, c: char, sep: char)
    requires |parts| >= 1
    ensures ConsPart(a, SnocPart(parts, c, sep), sep) == SnocPart(ConsPart(a, parts, sep), c, sep)
  {
    var n := |parts| - 1;
    if c != sep && a != sep && n == 0 {
      assert [a] + (parts[0] + [c]) == [a] + parts[0] + [c];
    }
  }

  lemma {:induction false} SplitAppend(s: string, c: char, sep: char)
    ensures Split(s + [c], sep) == SnocPart(Split(s, sep), c, sep)
  {
    if s == "" {
      assert s + [c] == [c] && [c][1..] == "";
      assert Split([c], sep) == ConsPart(c, [""], sep) && [c] + "" == "" + [c];
    } else {
      SplitAppend(s[1..], c, sep);
      ConsSnoc(s[0], Split(s[1..], sep), c, sep);
      assert (s + [c])[1..] == s[1..] + [c];
    }
  }

  lemma {:induction false} SplitWhole(s: string, sep: char)
    requires sep !in s
    ensures Split(s, sep) == [s]
  {
    if s != "" {
      SplitWhole(s[1..], sep);
      assert s == [s[0]] + s[1..];
    }
  }

  lemma {:induction false} SplitJoin(parts: seq<string>, sep: char)
    requires |parts| >= 1
    requires forall i | 0 <= i < |parts| :: sep !in parts[i]
    ensures Split(Join(parts, sep), sep) == parts
  {
    SplitWhole(parts[0], sep);
    if |parts| > 1 {
      SplitJoin(parts[1..], sep);
      SplitConcat(parts[0], Join(parts[1..], sep), sep);
    }
  }

  /* ---------------------------------------------------------------- TrimSpace */

  /** The first position from i on that is not white space. */
  function Skip(s: string, i: nat): (a: nat)
    requires i <= |s|
    ensures i <= a <= |s|
    decreases |s| - i
  {
    if i < |s| && IsSpace(s[i]) then Skip(s, i + 1) else i
  }

  /** The end of the text before position e once trailing white space is dropped. */
  function Back(s: string, e: nat): (b: nat)
    requires e <= |s|
    ensures b <= e
  {
    if e > 0 && IsSpace(s[e - 1]) then Back(s, e - 1) else e
  }

  lemma {:induction false} SkipMeaning(s: string, i: nat)
    requires i <= |s|
    ensures var a := Skip(s, i); Blank(s, i, a) && (a < |s| ==> !IsSpace(s[a]))
    decreases |s| - i
  {
    if i < |s| && IsSpace(s[i]) {
      SkipMeaning(s, i + 1);
    }
  }

  lemma {:induction false} BackMeaning(s: string, e: nat)
    requires e <= |s|
    ensures var b := Back(s, e); Blank(s, b, e) && (b > 0 ==> !IsSpace(s[b - 1]))
  {
    if e > 0 && IsSpace(s[e - 1]) {
      BackMeaning(s, e - 1);
    }
  }

  /** strings.TrimSpace. */
  function TrimSpace(s: string): string {
    var a, b := Skip(s, 0), Back(s, |s|);
    if a < b then s[a..b] else ""
  }

  ghost predicate Blank(s: string, from: nat, to: nat)
    requires to <= |s|
  {
    forall i | from <= i < to :: IsSpace(s[i])
  }

  /** s[a..b] is what is left when white space is cut off both ends of s. */
  ghost predicate Core(s: string, a: nat, b: nat) {
    a < b <= |s| && Blank(s, 0, a) && Blank(s, b, |s|) && !IsSpace(s[a]) && !IsSpace(s[b - 1])
  }

  lemma TrimCore(s: string, a: nat, b: nat)
    requires Core(s, a, b)
    ensures TrimSpace(s) == s[a..b]
  {
    SkipMeaning(s, 0);
    BackMeaning(s, |s|);
  }

  lemma TrimBlank(s: string)
    requires Blank(s, 0, |s|)
    ensures TrimSpace(s) == ""
  {
    SkipMeaning(s, 0);
  }

  /** Every text is blank or has a core. */
  lemma FindCore(s: string) returns (a: nat, b: nat)
    ensures a <= b <= |s| && TrimSpace(s) == s[a..b]
    ensures if a < b then Core(s, a, b) else Blank(s, 0, |s|)
  {
    a, b := Skip(s, 0), Back(s, |s|);
    SkipMeaning(s, 0);
    BackMeaning(s, |s|);
    if a >= b {
      a := b;
    }
  }

  /** Starts and ends with something TrimSpace keeps. */
  ghost predicate Trimmed(s: string) {
    s != "" ==> !IsSpace(s[0]) && !IsSpace(s[|s| - 1])
  }

  lemma TrimmedIsFixed(s: string)
    requires Trimmed(s)
    ensures TrimSpace(s) == s
  {
  }

  /* ---------------------------------------------------------------- Fields */

  /** Length of the run of non-space characters s starts with. */
  function WordLen(s: string): (n: nat)
    ensures n <= |s|
  {
    if s == "" || IsSpace(s[0]) then 0 else 1 + WordLen(s[1..])
  }

  /** strings.Fields. */
  function Fields(s: string): seq<string>
    decreases |s|
  {
    if s == "" then []
    else if IsSpace(s[0]) then Fields(s[1..])
    else var n := WordLen(s); [s[..n]] + Fields(s[n..])
  }

  /** Each word followed by one blank. */
  function Spaced(words: seq<string>): string {
    if words == [] then "" else words[0] + " " + Spaced(words[1..])
  }

  lemma {:induction false} SpacedOneLine(words: seq<string>)
    requires forall i | 0 <= i < |words| :: SpaceFree(words[i])
    ensures '\n' !in Spaced(words)
  {
    if words != [] {
      SpacedOneLine(words[1..]);
    }
  }

  lemma {:induction false} WordLenWord(w: string, rest: string)
    requires SpaceFree(w)
    requires rest != "" ==> IsSpace(rest[0])
    ensures WordLen(w + rest) == |w|
  {
    if w == "" {
      assert w + rest == rest;
    } else {
      assert (w + rest)[1..] == w[1..] + rest;
      WordLenWord(w[1..], rest);
    }
  }

  lemma FieldsOne(w: string)
    requires Word(w)
    ensures Fields(w) == [w]
  {
    WordLenWord(w, "");
    assert w + "" == w;
  }

  lemma FieldsWord(w: string, tail: string)
    requires Word(w)
    ensures Fields(w + " " + tail) == [w] + Fields(tail)
  {
    var s := w + " " + tail;
    var rest := " " + tail;
    assert s == w + rest;
    WordLenWord(w, rest);
    assert s[..|w|] == w && s[|w|..] == rest;
    assert rest[1..] == tail;
    assert Fields(rest) == Fields(tail);
  }

  lemma SpacedCons(words: seq<string>, rest: string)
    requires words != []
    ensures Spaced(words) + rest == words[0] + " " + (Spaced(words[1..]) + rest)
  {
  }

  lemma FieldsStep(words: seq<string>, rest: string)
    requires words != [] && Word(words[0])
    ensures Fields(Spaced(words) + rest) == [words[0]] + Fields(Spaced(words[1..]) + rest)
  {
    SpacedCons(words, rest);
    FieldsWord(words[0], Spaced(words[1..]) + rest);
  }

  lemma ConsConcat<T>(xs: seq<T>, ys: seq<T>)
    requires xs != []
    ensures [xs[0]] + (xs[1..] + ys) == xs + ys
  {
  }

  lemma {:induction false} FieldsSpaced(words: seq<string>, rest: string)
    requires forall i | 0 <= i < |words| :: Word(words[i])
    ensures Fields(Spaced(words) + rest) == words + Fields(rest)
  {
    if words == [] {
      assert Spaced(words) + rest == rest;
    } else {
      FieldsStep(words, rest);
      FieldsSpaced(words[1..], rest);
      ConsConcat(words, Fields(rest));
    }
  }

  /* ---------------------------------------------------------------- Cut, Index, LastIndexByte */

  /** The first position from i on that holds c, or |s|. */
  function Find(s: string, c: char, i: nat): (n: nat)
    requires i <= |s|
    ensures i <= n <= |s|
    decreases |s| - i
  {
    if i == |s| || s[i] == c then i else Find(s, c, i + 1)
  }

  lemma {:induction false} FindMeaning(s: string, c: char, i: nat)
    requires i <= |s|
    ensures var n := Find(s, c, i);
            (n < |s| ==> s[n] == c) && forall j | i <= j < n :: s[j] != c
    decreases |s| - i
  {
    if i < |s| && s[i] != c {
      FindMeaning(s, c, i + 1);
    }
  }

  /** strings.Cut around one character; None when it does not occur. */
  function Cut(s: string, sep: char): Option<(string, string)> {
    var i := Find(s, sep, 0);
    if i == |s| then None else Some((s[..i], s[i + 1..]))
  }

  lemma CutPair(k: string, v: string, sep: char)
    requires sep !in k
    ensures Cut(k + [sep] + v, sep) == Some((k, v))
  {
    var s := k + [sep] + v;
    FindMeaning(s, sep, 0);
    var i := Find(s, sep, 0);
    assert s[|k|] == sep;
    assert forall j | 0 <= j < |k| :: s[j] == k[j];
    assert i == |k|;
    assert s[..i] == k && s[i + 1..] == v;
  }

  predicate OccursAt(s: string, sub: string, i: nat) {
    i + |sub| <= |s| && s[i..i + |sub|] == sub
  }

  predicate Contains(s: string, sub: string) {
    exists i | 0 <= i <= |s| :: OccursAt(s, sub, i)
  }

  function IndexFrom(s: string, sub: string, from: nat): (i: int)
    requires from <= |s|
    ensures i == -1 || (from <= i && i + |sub| <= |s|)
    decreases |s| - from
  {
    if OccursAt(s, sub, from) then from
    else if from == |s| then -1
    else IndexFrom(s, sub, from + 1)
  }

  /** strings.Index: the first occurrence, or -1. */
  function Index(s: string, sub: string): (i: int)
    ensures i == -1 || (0 <= i && i + |sub| <= |s|)
  {
    IndexFrom(s, sub, 0)
  }

  lemma {:induction false} IndexIs(s: string, sub: string, from: nat, i: nat)
    requires from <= i && OccursAt(s, sub, i)
    requires forall j: nat | from <= j < i :: !OccursAt(s, sub, j)
    ensures IndexFrom(s, sub, from) == i
    decreases i - from
  {
    if from < i {
      IndexIs(s, sub, from + 1, i);
    }
  }

  /** strings.LastIndexByte. */
  function LastIndexChar(s: string, c: char): (i: int)
    ensures -1 <= i < |s|
  {
    LastIndexBefore(s, c, |s|)
  }

  function LastIndexBefore(s: string, c: char, e: nat): (i: int)
    requires e <= |s|
    ensures -1 <= i < e
  {
    if e == 0 then -1 else if s[e - 1] == c then e - 1 else LastIndexBefore(s, c, e - 1)
  }

  lemma {:induction false} LastIndexMeaning(s: string, c: char, e: nat)
    requires e <= |s|
    ensures var i := LastIndexBefore(s, c, e);
            (i >= 0 ==> s[i] == c) && forall j | i < j < e :: s[j] != c
  {
    if e > 0 && s[e - 1] != c {
      LastIndexMeaning(s, c, e - 1);
    }
  }

  lemma LastIndexIs(s: string, c: char, i: int)
    requires -1 <= i < |s| && (i >= 0 ==> s[i] == c)
    requires forall j | i < j < |s| :: s[j] != c
    ensures LastIndexChar(s, c) == i
  {
    LastIndexMeaning(s, c, |s|);
  }

  predicate HasPrefix(s: string, p: string) {
    |p| <= |s| && s[..|p|] == p
  }

  /* ---------------------------------------------------------------- numbers */

  function DigitChar(d: int): char
    requires 0 <= d < 10
  {
    "0123456789"[d]
  }

  predicate IsDigit(c: char) {
    '0' <= c <= '9'
  }

  function DigitValue(c: char): int
    requires IsDigit(c)
  {
    c as int - '0' as int
  }

  function Digits(n: nat): (s: string)
    ensures s != "" && forall i | 0 <= i < |s| :: IsDigit(s[i])
  {
    if n < 10 then [DigitChar(n)] else Digits(n / 10) + [DigitChar(n % 10)]
  }

  /** %d. */
  function Itoa(n: int): string {
    if n < 0 then "-" + Digits(-n) else Digits(n)
  }

  predicate AllDigits(s: string) {
    s != "" && forall i | 0 <= i < |s| :: IsDigit(s[i])
  }

  function DigitsValue(s: string): nat
    requires forall i | 0 <= i < |s| :: IsDigit(s[i])
  {
    if s == "" then 0 else DigitsValue(s[..|s| - 1]) * 10 + DigitValue(s[|s| - 1])
  }

  /** strconv.Atoi on a 64-bit platform; None is its error. */
  function Atoi(s: string): (r: Option<int>)
    ensures r.Some? ==> -0x8000_0000_0000_0000 <= r.value <= 0x7fff_ffff_ffff_ffff
  {
    var signed := s != "" && s[0] in "+-";
    var body := if signed then s[1..] else s;
    if !AllDigits(body) then None
    else
      var n: int := DigitsValue(body);
      var n := if signed && s[0] == '-' then -n else n;
      if -0x8000_0000_0000_0000 <= n <= 0x7fff_ffff_ffff_ffff then Some(n) else None
  }

  lemma {:induction false} DigitsRoundTrip(n: nat)
    ensures DigitsValue(Digits(n)) == n
  {
    if n >= 10 {
      DigitsRoundTrip(n / 10);
      assert Digits(n)[..|Digits(n)| - 1] == Digits(n / 10);
    }
  }

  lemma AtoiDigits(n: nat)
    requires n <= 0x7fff_ffff_ffff_ffff
    ensures Atoi(Digits(n)) == Some(n)
  {
    DigitsRoundTrip(n);
  }

  lemma DigitsInjective(m: nat, n: nat)
    requires Digits(m) == Digits(n)
    ensures m == n
  {
    DigitsRoundTrip(m);
    DigitsRoundTrip(n);
  }

  lemma DigitsWord(n: nat)
    ensures Word(Digits(n)) && '-' !in Digits(n) && ',' !in Digits(n) && '=' !in Digits(n)
  {
  }
}
