/** Per-node facts: how cluster-inventory.sh counts OSDs and prints one line per node, and how
    the operator parses those lines. */
module Inventory {
  import opened Basics
  import opened Text
  import opened KeyValue

  datatype NodeInventory = NodeInventory(
    name: string, online: bool, nodeID: int32, monitor: bool, manager: bool, osdsUp: int32, osdsTotal: int32)

  const NODE_KEY := "node="

  /** atoi32: 0 on error, truncated to 32 bits. */
  function Atoi32(s: string): int32 {
    Wrap32(Atoi(s).GetOr(0))
  }

  /* ---------------------------------------------------------------- parsing */

  function Number(v: Option<string>): int32 {
    if v.Some? then Atoi32(v.value) else 0
  }

  /** What the fields of one line say: for each key the last one counts. */
  function RecordOf(fields: seq<string>): NodeInventory {
    NodeInventory(
      LastValue(fields, "node").GetOr(""),
      LastValue(fields, "online") == Some("1"),
      Number(LastValue(fields, "nodeid")),
      LastValue(fields, "mon") == Some("1"),
      LastValue(fields, "mgr") == Some("1"),
      Number(LastValue(fields, "osds_up")),
      Number(LastValue(fields, "osds_total")))
  }

  /** The entry one line contributes, if any. */
  function Entry(line: string): map<string, NodeInventory> {
    var t := TrimSpace(line);
    if !HasPrefix(t, NODE_KEY) then map[]
    else
      var n := RecordOf(Fields(t));
      if n.name == "" then map[] else map[n.name := n]
  }

  /** Later lines override earlier ones. */
  function Entries(lines: seq<string>): map<string, NodeInventory> {
    if lines == [] then map[] else Entries(lines[..|lines| - 1]) + Entry(lines[|lines| - 1])
  }

  function InventoryOf(out: string): map<string, NodeInventory> {
    Entries(Split(out, '\n'))
  }

  /** The switch over the keys. */
  method Absorb(before: NodeInventory, k: string, v: string) returns (n: NodeInventory)
    ensures n == before.(
                   name := if k == "node" then v else before.name,
                   online := if k == "online" then v == "1" else before.online,
                   nodeID := if k == "nodeid" then Atoi32(v) else before.nodeID,
                   monitor := if k == "mon" then v == "1" else before.monitor,
                   manager := if k == "mgr" then v == "1" else before.manager,
                   osdsUp := if k == "osds_up" then Atoi32(v) else before.osdsUp,
                   osdsTotal := if k == "osds_total" then Atoi32(v) else before.osdsTotal)
  {
    n := before;
    match k {
      case "node" => n := n.(name := v);
      case "online" => n := n.(online := v == "1");
      case "nodeid" => n := n.(nodeID := Atoi32(v));
      case "mon" => n := n.(monitor := v == "1");
      case "mgr" => n := n.(manager := v == "1");
      case "osds_up" => n := n.(osdsUp := Atoi32(v));
      case "osds_total" => n := n.(osdsTotal := Atoi32(v));
      case _ =>
    }
  }

  /** One more field is one more switch. */
  lemma RecordStep(fields: seq<string>, i: nat)
    requires i < |fields|
    ensures var before, after, kv := RecordOf(fields[..i]), RecordOf(fields[..i + 1]), Cut(fields[i], '=');
            if kv.None? then after == before
            else
              var (k, v) := kv.value;
              after == before.(
                         name := if k == "node" then v else before.name,
                         online := if k == "online" then v == "1" else before.online,
                         nodeID := if k == "nodeid" then Atoi32(v) else before.nodeID,
                         monitor := if k == "mon" then v == "1" else before.monitor,
                         manager := if k == "mgr" then v == "1" else before.manager,
                         osdsUp := if k == "osds_up" then Atoi32(v) else before.osdsUp,
                         osdsTotal := if k == "osds_total" then Atoi32(v) else before.osdsTotal)
  {
    hide Atoi32, Cut, LastValue;
    LastValueStep(fields, i, "node");
    LastValueStep(fields, i, "online");
    LastValueStep(fields, i, "nodeid");
    LastValueStep(fields, i, "mon");
    LastValueStep(fields, i, "mgr");
    LastValueStep(fields, i, "osds_up");
    LastValueStep(fields, i, "osds_total");
  }

  method ReadRecord(fields: seq<string>) returns (n: NodeInventory)
    ensures n == RecordOf(fields)
  {
    n := NodeInventory("", false, 0, false, false, 0, 0);
    for i := 0 to |fields|
      invariant n == RecordOf(fields[..i])
    {
      RecordStep(fields, i);
      hide *;
      var kv := Cut(fields[i], '=');
      if kv.None? {
        continue;
      }
      n := Absorb(n, kv.value.0, kv.value.1);
    }
    assert fields[..|fields|] == fields;
  }

  method ParseInventory(out: string) returns (inv: map<string, NodeInventory>)
    ensures inv == InventoryOf(out)
  {
    hide TrimSpace, RecordOf, Fields, Split;
    inv := map[];
    var lines := Split(out, '\n');
    for i := 0 to |lines|
      invariant inv == Entries(lines[..i])
    {
      assert lines[..i + 1][..i] == lines[..i];
      var line := TrimSpace(lines[i]);
      if !HasPrefix(line, NODE_KEY) {
        assert Entry(lines[i]) == map[];
        continue;
      }
      var n := ReadRecord(Fields(line));
      if n.name != "" {
        inv := inv[n.name := n];
      }
    }
    assert lines[..|lines|] == lines;
  }

  lemma EntriesSnoc(lines: seq<string>, line: string)
    ensures Entries([]) == map[] && Entries(lines + [line]) == Entries(lines) + Entry(line)
  {
    hide Entry;
    assert (lines + [line])[..|lines|] == lines;
  }

  lemma {:induction false} EntriesConcat(a: seq<string>, b: seq<string>)
    ensures Entries(a + b) == Entries(a) + Entries(b)
  {
    hide Entry, Entries;
    if b == [] {
      assert a + b == a;
      EntriesSnoc([], "");
    } else {
      var n := |b| - 1;
      EntriesConcat(a, b[..n]);
      EntriesSnoc(a + b[..n], b[n]);
      EntriesSnoc(b[..n], b[n]);
      assert a + b[..n] + [b[n]] == a + b && b[..n] + [b[n]] == b;
    }
  }

  /** Parsing is a homomorphism: two texts put one below the other give the first inventory
      overridden by the second. */
  lemma ParseConcat(a: string, b: string)
    ensures InventoryOf(a + "\n" + b) == InventoryOf(a) + InventoryOf(b)
  {
    hide Entries;
    SplitConcat(a, b, '\n');
    EntriesConcat(Split(a, '\n'), Split(b, '\n'));
  }

  /** Every entry is filed under its own, non-empty name. */
  lemma {:induction false} EntriesNamed(lines: seq<string>)
    ensures forall k | k in Entries(lines) :: k != "" && Entries(lines)[k].name == k
  {
    if lines != [] {
      EntriesNamed(lines[..|lines| - 1]);
      hide RecordOf;
    }
  }

  /* ---------------------------------------------------------------- printing */

  const RECORD_KEYS := ["node", "online", "nodeid", "mon", "mgr", "osds_up", "osds_total"]

  function Bit(b: bool): string {
    if b then "1" else "0"
  }

  ghost predicate Printable(n: NodeInventory) {
    Word(n.name) && n.nodeID >= 0 && n.osdsUp >= 0 && n.osdsTotal >= 0
  }

  function RecordVals(n: NodeInventory): seq<string>
    requires n.nodeID >= 0 && n.osdsUp >= 0 && n.osdsTotal >= 0
  {
    [n.name, Bit(n.online), Digits(n.nodeID), Bit(n.monitor), Bit(n.manager), Digits(n.osdsUp), Digits(n.osdsTotal)]
  }

  function RecordWords(n: NodeInventory): (words: seq<string>)
    requires n.nodeID >= 0 && n.osdsUp >= 0 && n.osdsTotal >= 0
    ensures |words| == 7
  {
    Keyed(RECORD_KEYS, RecordVals(n))
  }

  /** The printf of the script, without the line break. */
  function RecordLine(n: NodeInventory): string
    requires n.nodeID >= 0 && n.osdsUp >= 0 && n.osdsTotal >= 0
  {
    Spaced(RecordWords(n)[..6]) + RecordWords(n)[6]
  }

  lemma RecordKeys()
    ensures Keys(RECORD_KEYS)
  {
    assert "mon"[1] != "mgr"[1] && "node"[0] != "mon"[0];
    assert forall i | 0 <= i < 7 :: Word(RECORD_KEYS[i]);
  }

  lemma RecordWordsAreWords(n: NodeInventory)
    requires Printable(n)
    ensures forall i | 0 <= i < 7 :: Word(RecordWords(n)[i])
  {
    DigitsWord(n.nodeID);
    DigitsWord(n.osdsUp);
    DigitsWord(n.osdsTotal);
    assert SpaceFree("0") && SpaceFree("1");
    RecordKeys();
    KeyedWords(RECORD_KEYS, RecordVals(n));
  }

  lemma RecordFields(n: NodeInventory)
    requires Printable(n)
    ensures Fields(RecordLine(n)) == RecordWords(n)
  {
    RecordWordsAreWords(n);
    hide RecordWords, Word;
    var words := RecordWords(n);
    FieldsSpaced(words[..6], words[6]);
    FieldsOne(words[6]);
    assert words[..6] + [words[6]] == words;
  }

  lemma RecordValues(n: NodeInventory)
    requires Printable(n)
    ensures RecordOf(RecordWords(n)) == n
  {
    var keys, vals := RECORD_KEYS, RecordVals(n);
    RecordKeys();
    AtoiDigits(n.nodeID);
    AtoiDigits(n.osdsUp);
    AtoiDigits(n.osdsTotal);
    hide Keyed, LastValue, LastNumber, Atoi, Digits, Keys;
    KeyedLastValue(keys, vals, 0);
    KeyedLastValue(keys, vals, 1);
    KeyedLastValue(keys, vals, 2);
    KeyedLastValue(keys, vals, 3);
    KeyedLastValue(keys, vals, 4);
    KeyedLastValue(keys, vals, 5);
    KeyedLastValue(keys, vals, 6);
  }

  lemma RecordLineEnds(n: NodeInventory)
    requires Printable(n)
    ensures var line := RecordLine(n); Trimmed(line) && HasPrefix(line, NODE_KEY) && '\n' !in line
  {
    RecordWordsAreWords(n);
    var words := RecordWords(n);
    var head, last := words[..6], words[6];
    SpacedCons(head, last);
    var line := RecordLine(n);
    assert words[0] == "node" + ['='] + n.name == NODE_KEY + n.name;
    var tail := " " + (Spaced(head[1..]) + last);
    assert line == NODE_KEY + (n.name + tail);
    assert line[|line| - 1] == last[|last| - 1];
    SpacedOneLine(head);
  }

  /** Reading one printed line gives back the record. */
  lemma RecordRoundTrip(n: NodeInventory)
    requires Printable(n)
    ensures Entry(RecordLine(n)) == map[n.name := n]
  {
    RecordLineEnds(n);
    RecordFields(n);
    RecordValues(n);
    hide TrimSpace, RecordOf, RecordLine, RecordWords;
    TrimmedIsFixed(RecordLine(n));
  }

  /** One line of the script's output: a record or something else on the combined streams. */
  datatype Line = Noise(text: string) | Record(node: NodeInventory)

  ghost predicate Readable(l: Line) {
    match l
    case Noise(t) => '\n' !in t && !HasPrefix(TrimSpace(t), NODE_KEY)
    case Record(n) => Printable(n)
  }

  ghost function TextOf(l: Line): string
    requires Readable(l)
  {
    match l
    case Noise(t) => t
    case Record(n) => RecordLine(n)
  }

  ghost function Texts(ls: seq<Line>): (texts: seq<string>)
    requires forall i | 0 <= i < |ls| :: Readable(ls[i])
    ensures |texts| == |ls|
    ensures forall i | 0 <= i < |ls| :: texts[i] == TextOf(ls[i])
  {
    seq(|ls|, i requires 0 <= i < |ls| => TextOf(ls[i]))
  }

  /** The records printed, later ones overriding earlier ones of the same name. */
  ghost function Printed(ls: seq<Line>): map<string, NodeInventory> {
    if ls == [] then map[]
    else
      var before := Printed(ls[..|ls| - 1]);
      match ls[|ls| - 1]
      case Noise(_) => before
      case Record(n) => before[n.name := n]
  }

  lemma {:induction false} EntriesOfTexts(ls: seq<Line>)
    requires forall i | 0 <= i < |ls| :: Readable(ls[i])
    ensures Entries(Texts(ls)) == Printed(ls)
  {
    hide Entry, Entries, RecordLine, Printable;
    EntriesSnoc([], "");
    if ls != [] {
      var n := |ls| - 1;
      EntriesOfTexts(ls[..n]);
      EntriesSnoc(Texts(ls[..n]), TextOf(ls[n]));
      assert Texts(ls) == Texts(ls[..n]) + [TextOf(ls[n])];
      match ls[n]
      case Noise(t) => NoiseSkipped(t);
      case Record(r) => RecordRoundTrip(r);
    }
  }

  lemma NoiseSkipped(t: string)
    requires !HasPrefix(TrimSpace(t), NODE_KEY)
    ensures Entry(t) == map[]
  {
  }

  lemma NothingPrinted()
    ensures InventoryOf(Join([], '\n')) == map[]
  {
  }

  /** Any printed records, interleaved with any other lines, are recovered exactly. */
  lemma InventoryRoundTrip(ls: seq<Line>)
    requires forall i | 0 <= i < |ls| :: Readable(ls[i])
    ensures InventoryOf(Join(Texts(ls), '\n')) == Printed(ls)
  {
    hide TextOf, Readable, Entries, Join, Split, InventoryOf;
    if ls == [] {
      assert Texts(ls) == [];
      NothingPrinted();
    } else {
      SomethingPrinted(ls);
    }
  }

  lemma SomethingPrinted(ls: seq<Line>)
    requires ls != [] && forall i | 0 <= i < |ls| :: Readable(ls[i])
    ensures InventoryOf(Join(Texts(ls), '\n')) == Printed(ls)
  {
    hide TextOf, Readable, Entries, Join, Split;
    forall i | 0 <= i < |ls| {
      TextOneLine(ls[i]);
    }
    SplitJoin(Texts(ls), '\n');
    EntriesOfTexts(ls);
  }

  lemma TextOneLine(l: Line)
    requires Readable(l)
    ensures '\n' !in TextOf(l)
  {
    if l.Record? {
      RecordLineEnds(l.node);
    }
  }

  /** With distinct names, exactly the records printed. */
  lemma {:induction false} PrintedExactly(ls: seq<Line>)
    requires forall i, j | 0 <= i < j < |ls| ::
               ls[i].Record? && ls[j].Record? ==> ls[i].node.name != ls[j].node.name
    ensures forall k, n :: k in Printed(ls) && Printed(ls)[k] == n <==> Record(n) in ls && n.name == k
  {
    if ls != [] {
      var m := |ls| - 1;
      PrintedExactly(ls[..m]);
      assert ls == ls[..m] + [ls[m]];
      assert forall i | 0 <= i < m :: ls[i] in ls[..m];
      if ls[m].Record? {
        assert ls[m].node.name !in Printed(ls[..m]);
      }
    }
  }
}
