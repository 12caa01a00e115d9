/** The awk program of cluster-inventory.sh that counts OSDs per host, and what its counts are
    worth once they went through the printed lines and the parser. */
module OSDCount {
  import opened Basics
  import opened Text
  import opened Inventory

  /* ---------------------------------------------------------------- reading `ceph osd tree` */

  /** awk's default field separator. */
  predicate AwkBlank(c: char) {
    c == ' ' || c == '\t' || c == '\n'
  }

  function AwkWordLen(s: string): (n: nat)
    ensures n <= |s|
  {
    if s == "" || AwkBlank(s[0]) then 0 else 1 + AwkWordLen(s[1..])
  }

  function AwkFields(s: string): seq<string>
    decreases |s|
  {
    if s == "" then []
    else if AwkBlank(s[0]) then AwkFields(s[1..])
    else var n := AwkWordLen(s); [s[..n]] + AwkFields(s[n..])
  }

  /** [[:space:]] */
  predicate PosixSpace(c: char) {
    c == ' ' || '\t' <= c <= '\r'
  }

  /** The field after the first "host", if the line has one. */
  function HostAfter(words: seq<string>): Option<string> {
    if words == [] then None
    else if words[0] == "host" then Some(if |words| > 1 then words[1] else "")
    else HostAfter(words[1..])
  }

  function HostLine(line: string): Option<string> {
    HostAfter(AwkFields(line))
  }

  predicate OSDLine(line: string) {
    HostLine(line).None? && Contains(line, "osd.")
  }

  predicate MarkedUp(line: string) {
    exists i | 0 <= i < |line| - 3 :: PosixSpace(line[i]) && line[i + 1..i + 3] == "up" && PosixSpace(line[i + 3])
  }

  /** The host bucket the first n lines leave us in. */
  function CurrentHost(lines: seq<string>, n: nat): string
    requires n <= |lines|
  {
    if n == 0 then ""
    else
      var h := HostLine(lines[n - 1]);
      if h.Some? then h.value else CurrentHost(lines, n - 1)
  }

  /** Line i is an OSD under host h. */
  predicate Under(lines: seq<string>, i: nat, h: string)
    requires i < |lines|
  {
    OSDLine(lines[i]) && h != "" && CurrentHost(lines, i) == h
  }

  function CountUnder(lines: seq<string>, n: nat, h: string): nat
    requires n <= |lines|
  {
    if n == 0 then 0 else CountUnder(lines, n - 1, h) + if Under(lines, n - 1, h) then 1 else 0
  }

  function CountUp(lines: seq<string>, n: nat, h: string): (c: nat)
    requires n <= |lines|
    ensures c <= CountUnder(lines, n, h)
  {
    if n == 0 then 0
    else CountUp(lines, n - 1, h) + if Under(lines, n - 1, h) && MarkedUp(lines[n - 1]) then 1 else 0
  }

  /** OSD lines read while some host is current. */
  function CountAll(lines: seq<string>, n: nat): nat
    requires n <= |lines|
  {
    if n == 0 then 0
    else CountAll(lines, n - 1) + if OSDLine(lines[n - 1]) && CurrentHost(lines, n - 1) != "" then 1 else 0
  }

  lemma Smaller(m: map<string, nat>, k: string)
    requires k in m
    ensures |m - {k}| == |m| - 1
  {
  }

  ghost function Sum(m: map<string, nat>): nat
    decreases |m|
  {
    if m == map[] then 0
    else
      var k :| k in m;
      Smaller(m, k);
      m[k] + Sum(m - {k})
  }

  lemma {:induction false} SumAt(m: map<string, nat>, k: string)
    requires k in m
    ensures Sum(m) == m[k] + Sum(m - {k})
    decreases |m|
  {
    var j :| j in m && Sum(m) == m[j] + Sum(m - {j});
    if j != k {
      Smaller(m, j);
      Smaller(m, k);
      SumAt(m - {j}, k);
      SumAt(m - {k}, j);
      assert m - {j} - {k} == m - {k} - {j};
    }
  }

  lemma SumIncrement(m: map<string, nat>, k: string)
    ensures Sum(m[k := (if k in m then m[k] else 0) + 1]) == Sum(m) + 1
  {
    var more := m[k := (if k in m then m[k] else 0) + 1];
    SumAt(more, k);
    assert more - {k} == m - {k};
    if k in m {
      SumAt(m, k);
    } else {
      assert m - {k} == m;
    }
  }

  /** The two arrays hold exactly the hosts with OSDs and exactly their counts, and nothing is
      lost or counted twice: the totals add up to the OSD lines read under some host. */
  ghost predicate Tallied(lines: seq<string>, n: nat, up: map<string, nat>, total: map<string, nat>)
    requires n <= |lines|
  {
    && (forall h :: h in total <==> CountUnder(lines, n, h) > 0)
    && (forall h | h in total :: total[h] == CountUnder(lines, n, h))
    && (forall h :: h in up <==> CountUp(lines, n, h) > 0)
    && (forall h | h in up :: up[h] == CountUp(lines, n, h))
  }

  function Bumped(m: map<string, nat>, k: string): map<string, nat> {
    m[k := (if k in m then m[k] else 0) + 1]
  }

  /** A line that is no OSD under a host leaves the tally as it is. */
  lemma TallySkip(lines: seq<string>, n: nat, up: map<string, nat>, total: map<string, nat>)
    requires n < |lines| && Tallied(lines, n, up, total) && Sum(total) == CountAll(lines, n)
    requires !OSDLine(lines[n]) || CurrentHost(lines, n) == ""
    ensures Tallied(lines, n + 1, up, total) && Sum(total) == CountAll(lines, n + 1)
  {
    hide HostLine, MarkedUp, Contains, OSDLine, CurrentHost;
  }

  lemma TallyOne(lines: seq<string>, n: nat, up: map<string, nat>, total: map<string, nat>)
    requires n < |lines| && Tallied(lines, n, up, total) && Sum(total) == CountAll(lines, n)
    requires OSDLine(lines[n]) && CurrentHost(lines, n) != ""
    ensures var host := CurrentHost(lines, n);
            && Tallied(lines, n + 1, if MarkedUp(lines[n]) then Bumped(up, host) else up, Bumped(total, host))
            && Sum(Bumped(total, host)) == CountAll(lines, n + 1)
  {
    hide HostLine, MarkedUp, Contains, OSDLine, CurrentHost;
    SumIncrement(total, CurrentHost(lines, n));
  }

  lemma HostStep(lines: seq<string>, n: nat)
    requires n < |lines|
    ensures CurrentHost(lines, n + 1) == HostLine(lines[n]).GetOr(CurrentHost(lines, n))
    ensures OSDLine(lines[n]) == (HostLine(lines[n]).None? && Contains(lines[n], "osd."))
  {
    hide HostLine, Contains;
  }

  lemma TallyNothing(lines: seq<string>)
    ensures CurrentHost(lines, 0) == "" && Tallied(lines, 0, map[], map[]) && Sum(map[]) == CountAll(lines, 0)
  {
  }

  method TallyOSDs(lines: seq<string>) returns (up: map<string, nat>, total: map<string, nat>)
    ensures Tallied(lines, |lines|, up, total)
    ensures Sum(total) == CountAll(lines, |lines|)
  {
    hide HostLine, MarkedUp, Contains, Tallied, CountAll, Sum, CurrentHost, OSDLine, Bumped;
    up, total := map[], map[];
    var host := "";
    TallyNothing(lines);
    for i := 0 to |lines|
      invariant host == CurrentHost(lines, i)
      invariant Tallied(lines, i, up, total) && Sum(total) == CountAll(lines, i)
    {
      HostStep(lines, i);
      var h := HostLine(lines[i]);
      if h.Some? {
        TallySkip(lines, i, up, total);
        host := h.value;
        continue;
      }
      if Contains(lines[i], "osd.") && host != "" {
        TallyOne(lines, i, up, total);
        total := Bumped(total, host);
        if MarkedUp(lines[i]) {
          up := Bumped(up, host);
        }
      } else {
        TallySkip(lines, i, up, total);
      }
    }
  }

  /* ---------------------------------------------------------------- through the lines and the parser */

  /** What the script knows when it starts printing. */
  datatype Facts = Facts(
    nodeIDs: map<string, int32>, mons: set<string>, mgrs: set<string>, up: map<string, nat>, total: map<string, nat>)

  function ValueOr0(m: map<string, nat>, k: string): nat {
    if k in m then m[k] else 0
  }

  ghost predicate Small(f: Facts) {
    && (forall k | k in f.nodeIDs :: f.nodeIDs[k] >= 0)
    && (forall k | k in f.total :: f.total[k] <= 0x7fff_ffff)
    && (forall k | k in f.up :: f.up[k] <= 0x7fff_ffff)
  }

  function RecordFor(f: Facts, name: string): NodeInventory
    requires Small(f)
  {
    NodeInventory(name, name in f.nodeIDs, if name in f.nodeIDs then f.nodeIDs[name] else 0,
                  name in f.mons, name in f.mgrs, ValueOr0(f.up, name), ValueOr0(f.total, name))
  }

  /** sort -u over the names seen: each once, in some order; a manager alone gives no line. */
  ghost predicate ListsNames(f: Facts, names: seq<string>) {
    && (forall n :: n in names <==> n in f.nodeIDs.Keys + f.mons + f.total.Keys)
    && (forall i, j | 0 <= i < j < |names| :: names[i] != names[j])
  }

  ghost function Lines(f: Facts, names: seq<string>): (ls: seq<Line>)
    requires Small(f)
    ensures |ls| == |names| && forall i | 0 <= i < |ls| :: ls[i] == Record(RecordFor(f, names[i]))
  {
    seq(|names|, i requires 0 <= i < |names| => Record(RecordFor(f, names[i])))
  }

  lemma LinesReadable(f: Facts, names: seq<string>)
    requires Small(f) && forall n | n in names :: Word(n)
    ensures forall i | 0 <= i < |names| :: Readable(Lines(f, names)[i])
  {
  }

  /** What the operator reads out of the script's output. */
  ghost function ParsedLines(f: Facts, names: seq<string>): map<string, NodeInventory>
    requires Small(f) && forall i | 0 <= i < |names| :: Readable(Lines(f, names)[i])
  {
    InventoryOf(Join(Texts(Lines(f, names)), '\n'))
  }

  lemma NamesAndLines(f: Facts, names: seq<string>, r: NodeInventory)
    requires Small(f)
    ensures Record(r) in Lines(f, names) <==> r.name in names && r == RecordFor(f, r.name)
  {
    var ls := Lines(f, names);
    if Record(r) in ls {
      var i :| 0 <= i < |ls| && ls[i] == Record(r);
      RecordForName(f, names[i]);
    }
    if r.name in names && r == RecordFor(f, r.name) {
      var i :| 0 <= i < |names| && names[i] == r.name;
      assert ls[i] == Record(r);
    }
  }

  lemma LinesParsed(f: Facts, names: seq<string>)
    requires Small(f) && ListsNames(f, names)
    requires forall i | 0 <= i < |names| :: Readable(Lines(f, names)[i])
    ensures var inv := ParsedLines(f, names);
            && (forall n :: n in inv <==> n in names)
            && (forall n | n in inv :: inv[n] == RecordFor(f, n))
  {
    hide InventoryOf, Join, Texts, Printed, Readable, Small, RecordFor;
    var ls := Lines(f, names);
    InventoryRoundTrip(ls);
    forall i | 0 <= i < |names| {
      RecordForName(f, names[i]);
    }
    PrintedExactly(ls);
    hide Lines;
    var inv := Printed(ls);
    forall n
      ensures n in inv <==> n in names
      ensures n in inv ==> inv[n] == RecordFor(f, n)
    {
      RecordForName(f, n);
      NamesAndLines(f, names, RecordFor(f, n));
      if n in inv {
        NamesAndLines(f, names, inv[n]);
      }
    }
  }

  lemma RecordForName(f: Facts, n: string)
    requires Small(f)
    ensures RecordFor(f, n).name == n
  {
  }

  /** From the OSD tree to the parsed inventory every host's counts arrive unchanged, so no node
      ever reports more OSDs up than it has; only known names get an entry. */
  lemma CountsSurvive(tree: seq<string>, f: Facts, names: seq<string>)
    requires Tallied(tree, |tree|, f.up, f.total) && Small(f)
    requires ListsNames(f, names) && forall n | n in names :: Word(n)
    ensures forall i | 0 <= i < |names| :: Readable(Lines(f, names)[i])
    ensures ParsedLines(f, names).Keys == f.nodeIDs.Keys + f.mons + f.total.Keys
    ensures forall n | n in ParsedLines(f, names) ::
              var r := ParsedLines(f, names)[n];
              && r == RecordFor(f, n)
              && r.online == (n in f.nodeIDs) && r.nodeID == (if n in f.nodeIDs then f.nodeIDs[n] else 0)
              && r.monitor == (n in f.mons) && r.manager == (n in f.mgrs)
              && r.osdsTotal == CountUnder(tree, |tree|, n)
              && r.osdsUp == CountUp(tree, |tree|, n) <= r.osdsTotal
  {
    hide ParsedLines, RecordFor, Tallied, Word;
    LinesReadable(f, names);
    LinesParsed(f, names);
    forall n | n in ParsedLines(f, names) {
      RecordCounts(tree, f, n);
    }
  }

  lemma RecordCounts(tree: seq<string>, f: Facts, n: string)
    requires Tallied(tree, |tree|, f.up, f.total) && Small(f)
    ensures var r := RecordFor(f, n);
            && r.online == (n in f.nodeIDs) && r.nodeID == (if n in f.nodeIDs then f.nodeIDs[n] else 0)
            && r.monitor == (n in f.mons) && r.manager == (n in f.mgrs)
    ensures RecordFor(f, n).osdsTotal == CountUnder(tree, |tree|, n)
    ensures RecordFor(f, n).osdsUp == CountUp(tree, |tree|, n)
  {
  }
}
