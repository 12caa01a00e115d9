/** The line ceph-status.sh prints and the parser that reads it back. */
module CephStatus {
  import opened Basics
  import opened Text
  import opened KeyValue
  import opened CephSpec

  datatype CephStatus = CephStatus(
    initialized: bool,
    monitors: seq<string>,
    managers: seq<string>,
    osdsReady: int32,
    osdsExpected: int32,
    osdSummary: string,
    pools: seq<string>,
    health: string,
    healthDetail: string)

  const DETAIL := "detail="

  /* ---------------------------------------------------------------- splitCSV */

  /** The trimmed entries that are not blank, in order. */
  function NonBlank(parts: seq<string>): seq<string> {
    if parts == [] then []
    else
      var p := TrimSpace(parts[|parts| - 1]);
      NonBlank(parts[..|parts| - 1]) + if p == "" then [] else [p]
  }

  function CSV(s: string): seq<string> {
    if s == "" then [] else NonBlank(Split(s, ','))
  }

  method SplitCSV(s: string) returns (out: seq<string>)
    ensures out == CSV(s)
  {
    out := [];
    if s == "" {
      return;
    }
    var parts := Split(s, ',');
    for i := 0 to |parts|
      invariant out == NonBlank(parts[..i])
    {
      assert parts[..i + 1][..i] == parts[..i];
      var p := TrimSpace(parts[i]);
      if p != "" {
        out := out + [p];
      }
    }
    assert parts[..|parts|] == parts;
  }

  ghost predicate ListedName(n: string) {
    Word(n) && ',' !in n
  }

  lemma ListedNameIsFixed(n: string)
    requires ListedName(n)
    ensures n != "" && TrimSpace(n) == n
  {
    TrimmedIsFixed(n);
  }

  lemma {:induction false} NonBlankNames(names: seq<string>)
    requires forall n | n in names :: ListedName(n)
    ensures NonBlank(names) == names
  {
    hide ListedName, TrimSpace;
    if names != [] {
      var last, others := names[|names| - 1], names[..|names| - 1];
      ListedNameIsFixed(last);
      NonBlankNames(others);
      assert names == others + [last];
    }
  }

  lemma CSVRoundTrip(names: seq<string>)
    requires forall n | n in names :: ListedName(n)
    ensures CSV(Join(names, ',')) == names
  {
    if names != [] {
      assert names[0] in names;
      assert forall i | 0 <= i < |names| :: names[i] in names;
      SplitJoin(names, ',');
      NonBlankNames(names);
      assert Join(names, ',') != "";
    }
  }

  /* ---------------------------------------------------------------- reading */

  function LastLine(out: string): string {
    var line := TrimSpace(out);
    var i := LastIndexChar(line, '\n');
    if i >= 0 then TrimSpace(line[i + 1..]) else line
  }

  /** The part of the line that is split into fields. */
  function Body(line: string): string {
    var i := Index(line, DETAIL);
    if i >= 0 then line[..i] else line
  }

  function Detail(line: string): string {
    var i := Index(line, DETAIL);
    if i >= 0 then TrimSpace(line[i + |DETAIL|..]) else ""
  }

  function StatusFields(out: string): seq<string> {
    Fields(Body(LastLine(out)))
  }

  function Listed(v: Option<string>): seq<string> {
    if v.Some? then CSV(v.value) else []
  }

  function Summary(ready: int32, expected: int32): string {
    Itoa(ready) + "/" + Itoa(expected)
  }

  /** What the fields say: for each key the last one counts. */
  function FieldsOf(expected: int32, fields: seq<string>): CephStatus {
    var health := LastValue(fields, "health");
    CephStatus(
      health.Some? && health.value != "UNINITIALIZED",
      Listed(LastValue(fields, "mons")),
      Listed(LastValue(fields, "mgrs")),
      Wrap32(LastNumber(fields, "osds_up").GetOr(0)),
      expected,
      "",
      Listed(LastValue(fields, "pools")),
      health.GetOr(""),
      "")
  }

  function StatusOf(spec: ClusterSpec, out: string): CephStatus {
    var st := FieldsOf(ExpectedOSDs(spec), StatusFields(out));
    st.(osdSummary := Summary(st.osdsReady, st.osdsExpected),
        healthDetail := if st.health == "HEALTH_OK" then "" else Detail(LastLine(out)))
  }

  /** The switch over the keys. */
  method Absorb(before: CephStatus, k: string, v: string) returns (st: CephStatus)
    ensures st == before.(
                    health := if k == "health" then v else before.health,
                    initialized := if k == "health" then v != "UNINITIALIZED" else before.initialized,
                    osdsReady := if k == "osds_up" && Atoi(v).Some? then Wrap32(Atoi(v).value) else before.osdsReady,
                    monitors := if k == "mons" then CSV(v) else before.monitors,
                    managers := if k == "mgrs" then CSV(v) else before.managers,
                    pools := if k == "pools" then CSV(v) else before.pools)
  {
    st := before;
    match k {
      case "health" =>
        st := st.(health := v, initialized := v != "UNINITIALIZED");
      case "osds_up" =>
        var number := Atoi(v);
        if number.Some? {
          st := st.(osdsReady := Wrap32(number.value));
        }
      case "mons" =>
        var names := SplitCSV(v);
        st := st.(monitors := names);
      case "mgrs" =>
        var names := SplitCSV(v);
        st := st.(managers := names);
      case "pools" =>
        var names := SplitCSV(v);
        st := st.(pools := names);
      case _ =>
    }
  }

  /** The loop over the fields. */
  method ReadFields(start: CephStatus, fields: seq<string>) returns (st: CephStatus)
    requires start == CephStatus(false, [], [], 0, start.osdsExpected, "", [], "", "")
    ensures st == FieldsOf(start.osdsExpected, fields)
  {
    st := start;
    for n := 0 to |fields|
      invariant st == FieldsOf(start.osdsExpected, fields[..n])
    {
      var kv := Cut(fields[n], '=');
      LastValueStep(fields, n, "health");
      LastValueStep(fields, n, "osds_up");
      LastValueStep(fields, n, "mons");
      LastValueStep(fields, n, "mgrs");
      LastValueStep(fields, n, "pools");
      if kv.None? {
        continue;
      }
      st := Absorb(st, kv.value.0, kv.value.1);
    }
    assert fields[..|fields|] == fields;
  }

  /** Warnings may come first. */
  method TakeLastLine(out: string) returns (line: string)
    ensures line == LastLine(out)
  {
    line := TrimSpace(out);
    var idx := LastIndexChar(line, '\n');
    if idx >= 0 {
      line := TrimSpace(line[idx + 1..]);
    }
  }

  /** The detail may contain blanks, so it is taken off the line first. */
  method CutDetail(line: string) returns (body: string, detail: string)
    ensures body == Body(line) && detail == Detail(line)
  {
    body, detail := line, "";
    var i := Index(line, DETAIL);
    if i >= 0 {
      detail := TrimSpace(line[i + |DETAIL|..]);
      body := line[..i];
    }
  }

  method ParseCephStatus(spec: ClusterSpec, out: string) returns (st: CephStatus)
    ensures st == StatusOf(spec, out)
  {
    st := CephStatus(false, [], [], 0, ExpectedOSDs(spec), "", [], "", "");
    var last := TakeLastLine(out);
    var line, detail := CutDetail(last);
    var fields := Fields(line);
    assert fields == StatusFields(out);
    st := ReadFields(st, fields);
    if st.health != "HEALTH_OK" {
      st := st.(healthDetail := detail);
    }
    st := st.(osdSummary := Summary(st.osdsReady, st.osdsExpected));
  }

  predicate CephUsable(st: CephStatus) {
    && st.initialized
    && st.health !in ["HEALTH_ERR", "UNREACHABLE", "UNINITIALIZED"]
    && st.osdsExpected > 0
    && st.osdsReady >= st.osdsExpected
  }

  /* ---------------------------------------------------------------- no false "usable" */

  /** The last line with something on it, trimmed: what the parser should be looking at. */
  function LastNonBlank(lines: seq<string>): string {
    if lines == [] then ""
    else
      var t := TrimSpace(lines[|lines| - 1]);
      if t != "" then t else LastNonBlank(lines[..|lines| - 1])
  }

  lemma TrimSpaceTail(s: string, c: char)
    requires IsSpace(c)
    ensures TrimSpace(s + [c]) == TrimSpace(s)
  {
    var a, b := FindCore(s);
    if a < b {
      TrimCore(s + [c], a, b);
    } else {
      TrimBlank(s + [c]);
    }
  }

  /** The last part is what follows the last separator. */
  lemma {:induction false} SplitLast(s: string, sep: char)
    ensures var parts := Split(s, sep); parts[|parts| - 1] == s[LastIndexChar(s, sep) + 1..]
  {
    if s != "" {
      var head, c := s[..|s| - 1], s[|s| - 1];
      assert s == head + [c];
      SplitLast(head, sep);
      SplitAppend(head, c, sep);
      LastIndexMeaning(head, sep, |head|);
      LastIndexIs(s, sep, if c == sep then |head| else LastIndexChar(head, sep));
    }
  }

  lemma {:induction false} LastLineIsLastNonBlank(out: string)
    ensures LastLine(out) == LastNonBlank(Split(out, '\n'))
  {
    hide TrimSpace;
    if out == "" {
      TrimBlank(out);
    } else {
      var head, c := out[..|out| - 1], out[|out| - 1];
      assert out == head + [c];
      if IsSpace(c) {
        LastLineIsLastNonBlank(head);
        TrimSpaceTail(head, c);
        SplitAppend(head, c, '\n');
        LastNonBlankTail(Split(head, '\n'), c);
      } else {
        LastLineOfText(out);
      }
    }
  }

  /** A white space character more at the end changes nothing. */
  lemma LastNonBlankTail(lines: seq<string>, c: char)
    requires lines != [] && IsSpace(c)
    ensures LastNonBlank(SnocPart(lines, c, '\n')) == LastNonBlank(lines)
  {
    var last, others := lines[|lines| - 1], lines[..|lines| - 1];
    if c == '\n' {
      TrimBlank("");
      assert (lines + [""])[..|lines|] == lines;
    } else {
      TrimSpaceTail(last, c);
      assert (others + [last + [c]])[..|others|] == others;
    }
  }

  /** The case of a text that does not end in white space. */
  lemma LastLineOfText(out: string)
    requires out != "" && !IsSpace(out[|out| - 1])
    ensures LastLine(out) == LastNonBlank(Split(out, '\n'))
  {
    SplitLast(out, '\n');
    LastLineIsLast(out);
  }

  lemma LastLineIsLast(out: string)
    requires out != "" && !IsSpace(out[|out| - 1])
    ensures LastLine(out) == TrimSpace(out[LastIndexChar(out, '\n') + 1..]) != ""
  {
    hide TrimSpace;
    var p := LastIndexChar(out, '\n');
    var a := TrimFront(out);
    NewlineAfter(out, a);
    LastIndexMeaning(out, '\n', |out|);
    if p < a {
      TrimAfter(out, p + 1, a);
    } else {
      DropDrop(out, a, p - a + 1);
      TrimAfter(out, p + 1, p + 1);
    }
  }

  lemma TrimFront(out: string) returns (a: nat)
    requires out != "" && !IsSpace(out[|out| - 1])
    ensures a < |out| && Blank(out, 0, a) && !IsSpace(out[a]) && TrimSpace(out) == out[a..]
  {
    a := Skip(out, 0);
    SkipMeaning(out, 0);
    TrimCore(out, a, |out|);
    assert out[a..] == out[a..|out|];
  }

  lemma DropDrop(s: string, a: nat, b: nat)
    requires a + b <= |s|
    ensures s[a..][b..] == s[a + b..]
  {
  }

  /** Cutting off the front keeps the last line break or loses all of them. */
  lemma NewlineAfter(s: string, a: nat)
    requires a <= |s|
    ensures var p := LastIndexChar(s, '\n');
            LastIndexChar(s[a..], '\n') == if p < a then -1 else p - a
  {
    LastIndexMeaning(s, '\n', |s|);
    var line, p := s[a..], LastIndexChar(s, '\n');
    var i := if p < a then -1 else p - a;
    forall j | i < j < |line|
      ensures line[j] != '\n'
    {
      assert line[j] == s[a + j];
    }
    LastIndexIs(line, '\n', i);
  }

  /** The text behind `from`, white space up to k, trims to what starts at k. */
  lemma TrimAfter(s: string, from: nat, k: nat)
    requires from <= k < |s| && !IsSpace(s[|s| - 1]) && Blank(s, from, k)
    ensures TrimSpace(s[from..]) != ""
    ensures !IsSpace(s[k]) ==> TrimSpace(s[from..]) == s[k..]
  {
    var t := s[from..];
    assert t[|t| - 1] == s[|s| - 1];
    var a, b := FindCore(t);
    if !IsSpace(s[k]) {
      forall j | 0 <= j < k - from
        ensures IsSpace(t[j])
      {
        assert t[j] == s[from + j];
      }
      assert t[k - from] == s[k];
      TrimCore(t, k - from, |t|);
      assert t[k - from..|t|] == s[k..];
    }
  }

  /** Whatever the script printed, a usable verdict is backed by the last non-blank line: its last
      health field, before any detail, is not a bad one, and some osds_up field holds a number that
      reaches the positive expected count. */
  lemma NoFalseUsable(spec: ClusterSpec, out: string) returns (h: int, health: string, u: int, up: string)
    requires CephUsable(StatusOf(spec, out))
    ensures var fields := Fields(Body(LastNonBlank(Split(out, '\n'))));
            && LastWithKey(fields, "health", h) && HasField(fields[h], "health", health)
            && health !in ["HEALTH_ERR", "UNREACHABLE", "UNINITIALIZED"]
            && 0 <= u < |fields| && HasField(fields[u], "osds_up", up)
            && Atoi(up).Some? && Wrap32(Atoi(up).value) >= ExpectedOSDs(spec) > 0
  {
    LastLineIsLastNonBlank(out);
    var fields := StatusFields(out);
    h := LastValueMeaning(fields, "health");
    health := LastValue(fields, "health").value;
    u, up := LastNumberMeaning(fields, "osds_up");
  }

  /* ---------------------------------------------------------------- round trip */

  datatype Report = Report(
    health: string, osdsUp: nat, osdsIn: nat, mons: seq<string>, mgrs: seq<string>, pools: seq<string>, detail: string)

  const REPORT_KEYS := ["health", "osds_up", "osds_in", "mons", "mgrs", "pools"]

  function ReportVals(r: Report): seq<string> {
    [r.health, Digits(r.osdsUp), Digits(r.osdsIn), Join(r.mons, ','), Join(r.mgrs, ','), Join(r.pools, ',')]
  }

  function ReportWords(r: Report): seq<string> {
    Keyed(REPORT_KEYS, ReportVals(r))
  }

  /** What the script echoes. */
  function ReportLine(r: Report): string {
    Spaced(ReportWords(r)) + DETAIL + r.detail
  }

  ghost predicate Printable(r: Report) {
    && SpaceFree(r.health)
    && r.osdsUp <= 0x7fff_ffff_ffff_ffff
    && (forall n | n in r.mons + r.mgrs + r.pools :: ListedName(n))
    && (forall w | w in ReportWords(r) :: !Contains(w, DETAIL))
    && Trimmed(r.detail) && '\n' !in r.detail
  }

  lemma OccurrenceCovers(s: string, sub: string, i: nat, p: nat)
    requires OccursAt(s, sub, i) && i <= p < i + |sub|
    ensures s[p] in sub
  {
  }

  /** A string without blanks that occurs in no word occurs nowhere in the spaced words either. */
  lemma {:induction false} NotAcrossWords(words: seq<string>, rest: string, sub: string, i: nat)
    requires sub != "" && ' ' !in sub
    requires forall w | w in words :: !Contains(w, sub)
    requires i < |Spaced(words)|
    ensures !OccursAt(Spaced(words) + rest, sub, i)
  {
    var w, tail := words[0], Spaced(words[1..]) + rest;
    var s := Spaced(words) + rest;
    SpacedCons(words, rest);
    assert s == w + " " + tail;
    if OccursAt(s, sub, i) {
      if i + |sub| <= |w| {
        assert s[i..i + |sub|] == w[i..i + |sub|];
        assert OccursAt(w, sub, i) && w in words;
        assert false;
      } else if i <= |w| {
        OccurrenceCovers(s, sub, i, |w|);
      } else {
        var j := i - |w| - 1;
        assert s[i..i + |sub|] == tail[j..j + |sub|];
        NotAcrossWords(words[1..], rest, sub, j);
      }
    }
  }

  lemma DetailStarts(words: seq<string>, detail: string)
    requires forall w | w in words :: !Contains(w, DETAIL)
    ensures Index(Spaced(words) + DETAIL + detail, DETAIL) == |Spaced(words)|
  {
    var p := Spaced(words);
    var s := p + DETAIL + detail;
    assert s == p + (DETAIL + detail);
    assert s[|p|..|p| + |DETAIL|] == DETAIL;
    forall j: nat | j < |p|
      ensures !OccursAt(s, DETAIL, j)
    {
      NotAcrossWords(words, DETAIL + detail, DETAIL, j);
    }
    IndexIs(s, DETAIL, 0, |p|);
  }

  lemma {:induction false} JoinSpaceFree(names: seq<string>)
    requires forall n | n in names :: ListedName(n)
    ensures SpaceFree(Join(names, ','))
  {
    assert forall i | 0 <= i < |names| :: names[i] in names;
    if |names| >= 2 {
      JoinSpaceFree(names[1..]);
      assert !IsSpace(',');
    }
  }

  lemma ReportKeys()
    ensures Keys(REPORT_KEYS)
  {
    assert "osds_up"[5] != "osds_in"[5] && "mons"[1] != "mgrs"[1];
  }

  lemma ReportWordsAreWords(r: Report)
    requires Printable(r)
    ensures forall i | 0 <= i < |ReportWords(r)| :: Word(ReportWords(r)[i])
  {
    JoinSpaceFree(r.mons);
    JoinSpaceFree(r.mgrs);
    JoinSpaceFree(r.pools);
    DigitsWord(r.osdsUp);
    DigitsWord(r.osdsIn);
    ReportKeys();
    KeyedWords(REPORT_KEYS, ReportVals(r));
  }

  lemma ReportLineIsTrimmed(r: Report)
    requires Printable(r)
    ensures var line := ReportLine(r);
            line != "" && Trimmed(line) && '\n' !in line
  {
    ReportWordsAreWords(r);
    var words := ReportWords(r);
    SpacedOneLine(words);
    SpacedCons(words, DETAIL + r.detail);
    assert ReportLine(r) == Spaced(words) + (DETAIL + r.detail);
    assert ReportLine(r)[0] == words[0][0];
    assert '\n' !in DETAIL;
  }

  /** Noise lines before and white space after a line do not hide it. */
  lemma LastLineAmidNoise(line: string, noise: string, spaces: string)
    requires line != "" && Trimmed(line) && '\n' !in line
    requires noise != "" ==> noise[|noise| - 1] == '\n'
    requires Blank(spaces, 0, |spaces|)
    ensures LastLine(noise + line + spaces) == line
  {
    var out, m, n := noise + line + spaces, |noise|, |noise| + |line|;
    var a := Skip(noise, 0);
    assert TrimSpace(out) == noise[a..] + line by {
      SkipMeaning(noise, 0);
      NoiseCore(line, noise, spaces, a);
      TrimCore(out, a, n);
      assert out[a..n] == noise[a..] + line;
    }
    var kept := noise[a..];
    assert kept != "" ==> kept[|kept| - 1] == '\n';
    LastNewlineBefore(kept, line);
    assert (kept + line)[|kept|..] == line;
    TrimmedIsFixed(line);
  }

  lemma LastNewlineBefore(kept: string, line: string)
    requires '\n' !in line && (kept != "" ==> kept[|kept| - 1] == '\n')
    ensures LastIndexChar(kept + line, '\n') == |kept| - 1
  {
    LastIndexIs(kept + line, '\n', |kept| - 1);
  }

  lemma NoiseCore(line: string, noise: string, spaces: string, a: nat)
    requires line != "" && Trimmed(line) && Blank(spaces, 0, |spaces|)
    requires a <= |noise| && Blank(noise, 0, a) && (a < |noise| ==> !IsSpace(noise[a]))
    ensures Core(noise + line + spaces, a, |noise| + |line|)
  {
  }

  lemma ReportValues(r: Report)
    requires Printable(r)
    ensures var fields := ReportWords(r);
            && LastValue(fields, "health") == Some(r.health)
            && LastNumber(fields, "osds_up") == Some(r.osdsUp)
            && LastValue(fields, "mons") == Some(Join(r.mons, ','))
            && LastValue(fields, "mgrs") == Some(Join(r.mgrs, ','))
            && LastValue(fields, "pools") == Some(Join(r.pools, ','))
  {
    var keys, vals := REPORT_KEYS, ReportVals(r);
    ReportKeys();
    AtoiDigits(r.osdsUp);
    KeyedLastValue(keys, vals, 0);
    KeyedLastValue(keys, vals, 1);
    KeyedLastValue(keys, vals, 3);
    KeyedLastValue(keys, vals, 4);
    KeyedLastValue(keys, vals, 5);
  }

  lemma ReportLineParts(r: Report)
    requires Printable(r)
    ensures Fields(Body(ReportLine(r))) == ReportWords(r) && Detail(ReportLine(r)) == r.detail
  {
    var line, words := ReportLine(r), ReportWords(r);
    DetailStarts(words, r.detail);
    assert line[..|Spaced(words)|] == Spaced(words) && line[|Spaced(words)| + |DETAIL|..] == r.detail;
    TrimmedIsFixed(r.detail);
    ReportWordsAreWords(r);
    FieldsSpaced(words, "");
    assert Spaced(words) + "" == Spaced(words) && words + [] == words;
  }

  /** Parsing what was printed, after any other lines and before any trailing white space, gives
      back every field, a count beyond 32 bits modulo 2^32; the detail is kept exactly when the health is
      not HEALTH_OK. */
  lemma StatusRoundTrip(spec: ClusterSpec, r: Report, noise: string, spaces: string)
    requires Printable(r)
    requires noise != "" ==> noise[|noise| - 1] == '\n'
    requires Blank(spaces, 0, |spaces|)
    ensures StatusOf(spec, noise + ReportLine(r) + spaces)
            == CephStatus(r.health != "UNINITIALIZED", r.mons, r.mgrs, Wrap32(r.osdsUp), ExpectedOSDs(spec),
                          Summary(Wrap32(r.osdsUp), ExpectedOSDs(spec)), r.pools, r.health,
                          if r.health == "HEALTH_OK" then "" else r.detail)
  {
    hide LastLine, Fields, Body, Detail, ReportLine, ReportWords, CSV, Summary, ExpectedOSDs, Join, Contains;
    assert LastLine(noise + ReportLine(r) + spaces) == ReportLine(r) by {
      ReportLineIsTrimmed(r);
      LastLineAmidNoise(ReportLine(r), noise, spaces);
    }
    assert Fields(Body(ReportLine(r))) == ReportWords(r) && Detail(ReportLine(r)) == r.detail by {
      ReportLineParts(r);
    }
    ReportValues(r);
    CSVRoundTrip(r.mons);
    CSVRoundTrip(r.mgrs);
    CSVRoundTrip(r.pools);
  }
}
