/** The table that `ceph osd tree` prints, and that the awk program counts in it exactly the OSDs listed under each
    host and those of them that are up. */
module OSDTrees {
  import opened Basics
  import opened Text
  import opened Inventory
  import opened OSDCount

  /* ---------------------------------------------------------------- rows of words */

  /** What stands in one column: no white space inside. */
  ghost predicate Cell(w: string) {
    w != "" && forall i | 0 <= i < |w| :: !PosixSpace(w[i])
  }

  function Blanks(n: nat): (s: string)
    ensures |s| == n && forall i | 0 <= i < n :: s[i] == ' '
  {
    if n == 0 then "" else " " + Blanks(n - 1)
  }

  /** Every cell after one blank and some more. */
  function Columns(cells: seq<string>, gaps: nat -> nat): string {
    if cells == [] then ""
    else Blanks(gaps(|cells|) + 1) + cells[0] + Columns(cells[1..], gaps)
  }

  /** The first cell may stand at the margin. */
  function RowText(cells: seq<string>, gaps: nat -> nat): string {
    if cells == [] then "" else Columns(cells, gaps)[1..]
  }

  lemma {:induction false} SkipBlanks(n: nat, s: string)
    ensures AwkFields(Blanks(n) + s) == AwkFields(s)
  {
    if n == 0 {
      assert Blanks(n) + s == s;
    } else {
      SkipBlanks(n - 1, s);
      assert (Blanks(n) + s)[1..] == Blanks(n - 1) + s;
    }
  }

  lemma {:induction false} WordLength(w: string, s: string)
    requires (forall i | 0 <= i < |w| :: !AwkBlank(w[i])) && (s == "" || AwkBlank(s[0]))
    ensures AwkWordLen(w + s) == |w|
  {
    if w == "" {
      assert w + s == s;
    } else {
      WordLength(w[1..], s);
      assert (w + s)[1..] == w[1..] + s;
    }
  }

  lemma ColumnsStart(cells: seq<string>, gaps: nat -> nat)
    ensures var s := Columns(cells, gaps); s == "" || s[0] == ' '
  {
  }

  lemma {:induction false} FieldsOfColumns(cells: seq<string>, gaps: nat -> nat)
    requires forall i | 0 <= i < |cells| :: Cell(cells[i])
    ensures AwkFields(Columns(cells, gaps)) == cells
  {
    if cells != [] {
      var w, rest := cells[0], Columns(cells[1..], gaps);
      FieldsOfColumns(cells[1..], gaps);
      ColumnsStart(cells[1..], gaps);
      SkipBlanks(gaps(|cells|) + 1, w + rest);
      assert Blanks(gaps(|cells|) + 1) + w + rest == Blanks(gaps(|cells|) + 1) + (w + rest);
      WordLength(w, rest);
      assert (w + rest)[..|w|] == w && (w + rest)[|w|..] == rest && (w + rest)[0] == w[0];
      assert !AwkBlank(w[0]);
    }
  }

  lemma FieldsOfRow(cells: seq<string>, gaps: nat -> nat)
    requires forall i | 0 <= i < |cells| :: Cell(cells[i])
    ensures AwkFields(RowText(cells, gaps)) == cells
  {
    FieldsOfColumns(cells, gaps);
    if cells != [] {
      assert Columns(cells, gaps)[0] == ' ';
    }
  }

  lemma {:induction false} HostFound(before: seq<string>, name: string, after: seq<string>)
    requires "host" !in before
    ensures HostAfter(before + ["host", name] + after) == Some(name)
  {
    var words := before + ["host", name] + after;
    if before != [] {
      HostFound(before[1..], name, after);
      assert words[1..] == before[1..] + ["host", name] + after && words[0] == before[0];
    }
  }

  lemma {:induction false} NoHostFound(words: seq<string>)
    requires "host" !in words
    ensures HostAfter(words) == None
  {
    if words != [] {
      NoHostFound(words[1..]);
    }
  }

  /* ---------------------------------------------------------------- "up" between blanks */

  predicate UpAt(s: string, i: int) {
    0 <= i < |s| - 3 && PosixSpace(s[i]) && s[i + 1..i + 3] == "up" && PosixSpace(s[i + 3])
  }

  /** What stands behind the first cell. */
  lemma Parts(cells: seq<string>, gaps: nat -> nat)
    requires cells != []
    ensures var s, b, w, rest := Columns(cells, gaps), gaps(|cells|) + 1, cells[0], Columns(cells[1..], gaps);
            && |s| == b + |w| + |rest|
            && (forall i | 0 <= i < b :: s[i] == ' ')
            && (forall i | 0 <= i < |w| :: s[b + i] == w[i])
            && (forall i | 0 <= i < |rest| :: s[b + |w| + i] == rest[i])
  {
  }

  ghost predicate Shaped(s: string, b: nat, w: string, rest: string) {
    && |s| == b + |w| + |rest|
    && (forall i | 0 <= i < b :: s[i] == ' ')
    && (forall i | 0 <= i < |w| :: s[b + i] == w[i])
    && (forall i | 0 <= i < |rest| :: s[b + |w| + i] == rest[i])
  }

  lemma UpHere(s: string, b: nat, w: string, rest: string, i: int)
    requires Shaped(s, b, w, rest) && Cell(w) && (rest == "" || rest[0] == ' ')
    requires 0 <= i < |s| - 3 && PosixSpace(s[i]) && s[i + 1] == 'u' && s[i + 2] == 'p' && PosixSpace(s[i + 3])
    requires i < b + |w|
    ensures w == "up"
  {
    assert forall j | b <= j < b + |w| :: s[j] == w[j - b];
    assert forall j | b + |w| <= j < |s| :: s[j] == rest[j - b - |w|];
  }

  lemma UpLater(s: string, b: nat, w: string, rest: string, i: int)
    requires Shaped(s, b, w, rest) && UpAt(s, i) && i >= b + |w|
    ensures UpAt(rest, i - b - |w|)
  {
    var j := i - b - |w|;
    assert rest[j + 1..j + 3] == s[i + 1..i + 3];
  }

  lemma {:induction false} UpIsCell(cells: seq<string>, gaps: nat -> nat, i: int)
    requires (forall k | 0 <= k < |cells| :: Cell(cells[k])) && UpAt(Columns(cells, gaps), i)
    ensures "up" in cells
  {
    Parts(cells, gaps);
    ColumnsStart(cells[1..], gaps);
    var s, b, w, rest := Columns(cells, gaps), gaps(|cells|) + 1, cells[0], Columns(cells[1..], gaps);
    hide Columns;
    assert Shaped(s, b, w, rest);
    hide Shaped, Cell;
    if i >= b + |w| {
      UpLater(s, b, w, rest, i);
      UpIsCell(cells[1..], gaps, i - b - |w|);
    } else {
      assert s[i + 1] == s[i + 1..i + 3][0] && s[i + 2] == s[i + 1..i + 3][1];
      UpHere(s, b, w, rest, i);
    }
  }

  /** An "up" with a column to its right shows. */
  lemma {:induction false} CellIsUp(cells: seq<string>, gaps: nat -> nat, k: nat) returns (i: int)
    requires k + 1 < |cells| && cells[k] == "up"
    ensures UpAt(Columns(cells, gaps), i) && (k > 0 ==> i > 0)
    decreases k
  {
    Parts(cells, gaps);
    var s, b, w, rest := Columns(cells, gaps), gaps(|cells|) + 1, cells[0], Columns(cells[1..], gaps);
    hide Columns;
    if k == 0 {
      Parts(cells[1..], gaps);
      i := b - 1;
      assert s[i + 1..i + 3] == "up";
    } else {
      var j := CellIsUp(cells[1..], gaps, k - 1);
      i := b + |w| + j;
      assert s[i + 1..i + 3] == rest[j + 1..j + 3];
    }
  }

  lemma PartOf(s: string, b: nat, t: string, j: nat, n: nat)
    requires b + |t| <= |s| && j + n <= |t| && forall i | 0 <= i < |t| :: s[b + i] == t[i]
    ensures s[b + j..b + j + n] == t[j..j + n]
  {
    assert s[b..b + |t|] == t;
    assert s[b..b + |t|][j..j + n] == s[b + j..b + j + n];
  }

  lemma {:induction false} PrefixShows(cells: seq<string>, gaps: nat -> nat, k: nat, sub: string) returns (i: nat)
    requires k < |cells| && |sub| <= |cells[k]| && cells[k][..|sub|] == sub
    ensures OccursAt(Columns(cells, gaps), sub, i) && i > 0
    decreases k
  {
    Parts(cells, gaps);
    var s, b, w, rest := Columns(cells, gaps), gaps(|cells|) + 1, cells[0], Columns(cells[1..], gaps);
    hide Columns;
    assert Shaped(s, b, w, rest);
    if k == 0 {
      i := b;
      PartOf(s, b, w, 0, |sub|);
      assert w[0..0 + |sub|] == w[..|sub|];
    } else {
      var j := PrefixShows(cells[1..], gaps, k - 1, sub);
      i := b + |w| + j;
      PartOf(s, b + |w|, rest, j, |sub|);
    }
  }

  /* ---------------------------------------------------------------- the tree */

  /** A row: a host bucket, an OSD with its status, or something else (the head line, the root, racks). */
  datatype TreeRow =
    | HostRow(before: seq<string>, name: string, after: seq<string>)
    | OSDRow(before: seq<string>, id: nat, up: bool, after: seq<string>)
    | OtherRow(cells: seq<string>)

  function OSDName(id: nat): string {
    "osd." + Digits(id)
  }

  function Cells(r: TreeRow): seq<string> {
    match r
    case HostRow(before, name, after) => before + ["host", name] + after
    case OSDRow(before, id, up, after) => before + [OSDName(id), if up then "up" else "down"] + after
    case OtherRow(cells) => cells
  }

  /** As the command prints it: columns left of the type and name, and others right of the status. */
  ghost predicate Proper(r: TreeRow) {
    && (forall i | 0 <= i < |Cells(r)| :: Cell(Cells(r)[i]))
    && match r
       case HostRow(before, name, _) => "host" !in before
       case OSDRow(before, _, _, after) =>
         "host" !in before + after && "up" !in before + after && after != []
       case OtherRow(cells) => "host" !in cells
  }

  lemma NoSpaceInside(id: nat)
    ensures Cell(OSDName(id)) && OSDName(id) != "host" && OSDName(id) != "up" && OSDName(id)[..4] == "osd."
  {
    DigitsWord(id);
    var d := Digits(id);
    hide Digits;
    forall i | 0 <= i < |OSDName(id)|
      ensures !PosixSpace(OSDName(id)[i])
    {
      if i >= 4 {
        assert OSDName(id)[i] == d[i - 4];
      }
    }
  }

  lemma HostRowRead(r: TreeRow, gaps: nat -> nat)
    requires Proper(r) && r.HostRow?
    ensures HostLine(RowText(Cells(r), gaps)) == Some(r.name)
  {
    FieldsOfRow(Cells(r), gaps);
    HostFound(r.before, r.name, r.after);
  }

  lemma OtherRowRead(r: TreeRow, gaps: nat -> nat)
    requires Proper(r) && !r.HostRow?
    ensures HostLine(RowText(Cells(r), gaps)) == None
  {
    FieldsOfRow(Cells(r), gaps);
    if r.OSDRow? {
      NoSpaceInside(r.id);
      hide OSDName, Cell, RowText, AwkFields;
      forall i | 0 <= i < |Cells(r)|
        ensures Cells(r)[i] != "host"
      {
        NotThere(r, i, "host");
      }
    }
    NoHostFound(Cells(r));
  }

  lemma NotThere(r: TreeRow, i: nat, w: string)
    requires r.OSDRow? && i < |Cells(r)| && w !in r.before + r.after
    ensures Cells(r)[i] == w ==> Cells(r)[i] in {OSDName(r.id), if r.up then "up" else "down"}
  {
    var n := |r.before|;
    if i < n {
      assert Cells(r)[i] == r.before[i] && r.before[i] in r.before + r.after;
    } else if i >= n + 2 {
      assert Cells(r)[i] == r.after[i - n - 2] && r.after[i - n - 2] in r.before + r.after;
    }
  }

  lemma OSDRowRead(r: TreeRow, gaps: nat -> nat)
    requires Proper(r) && r.OSDRow?
    ensures OSDLine(RowText(Cells(r), gaps)) && (MarkedUp(RowText(Cells(r), gaps)) <==> r.up)
  {
    OtherRowRead(r, gaps);
    NoSpaceInside(r.id);
    var cells, n := Cells(r), |r.before|;
    var s, text := Columns(cells, gaps), RowText(cells, gaps);
    assert cells[n] == OSDName(r.id) && cells[n + 1] == if r.up then "up" else "down";
    assert text == s[1..];
    hide Columns, Cell, OSDName, HostLine;
    var j := PrefixShows(cells, gaps, n, "osd.");
    assert OccursAt(text, "osd.", j - 1) by {
      assert text[j - 1..j + 3] == s[j..j + 4];
    }
    if r.up {
      var i := CellIsUp(cells, gaps, n + 1);
      assert text[i..i + 2] == s[i + 1..i + 3];
      assert UpAt(text, i - 1);
    } else {
      NotUp(r, gaps);
    }
  }

  lemma Shifted(s: string, text: string, i: int)
    requires s != "" && text == s[1..] && UpAt(text, i)
    ensures UpAt(s, i + 1)
  {
    assert s[i + 2..i + 4] == text[i + 1..i + 3];
  }

  lemma NotUp(r: TreeRow, gaps: nat -> nat)
    requires Proper(r) && r.OSDRow? && !r.up
    ensures !MarkedUp(RowText(Cells(r), gaps))
  {
    NoSpaceInside(r.id);
    var cells := Cells(r);
    var s, text := Columns(cells, gaps), RowText(cells, gaps);
    assert text == s[1..];
    hide Columns, Cell, OSDName, RowText;
    if MarkedUp(text) {
      var i :| 0 <= i < |text| - 3 && PosixSpace(text[i]) && text[i + 1..i + 3] == "up" && PosixSpace(text[i + 3]);
      Shifted(s, text, i);
      UpIsCell(cells, gaps, i + 1);
      var k :| 0 <= k < |cells| && cells[k] == "up";
      NotThere(r, k, "up");
    }
  }

  /* ---------------------------------------------------------------- counting */

  /** Whose OSDs the row after the first n belongs to. */
  function HostOf(rows: seq<TreeRow>, n: nat): string
    requires n <= |rows|
  {
    if n == 0 then "" else if rows[n - 1].HostRow? then rows[n - 1].name else HostOf(rows, n - 1)
  }

  /** The rows of OSDs listed under this host. */
  function OSDsUnder(rows: seq<TreeRow>, host: string): set<nat> {
    set k: nat | k < |rows| && rows[k].OSDRow? && HostOf(rows, k) == host
  }

  function UpUnder(rows: seq<TreeRow>, host: string): set<nat> {
    set k: nat | k < |rows| && rows[k].OSDRow? && HostOf(rows, k) == host && rows[k].up
  }

  /** The printed table, with any column widths. */
  ghost predicate PrintedTree(rows: seq<TreeRow>, gaps: nat -> nat -> nat, lines: seq<string>) {
    && |lines| == |rows|
    && (forall k | 0 <= k < |rows| :: Proper(rows[k]) && lines[k] == RowText(Cells(rows[k]), gaps(k)))
    && (forall k | 0 <= k < |rows| && rows[k].OtherRow? :: !Contains(lines[k], "osd."))
  }

  lemma {:induction false} HostsAgree(rows: seq<TreeRow>, gaps: nat -> nat -> nat, lines: seq<string>, n: nat)
    requires PrintedTree(rows, gaps, lines) && n <= |rows|
    ensures CurrentHost(lines, n) == HostOf(rows, n)
  {
    hide HostLine, Proper, Cells, RowText;
    if n > 0 {
      HostsAgree(rows, gaps, lines, n - 1);
      if rows[n - 1].HostRow? {
        HostRowRead(rows[n - 1], gaps(n - 1));
      } else {
        OtherRowRead(rows[n - 1], gaps(n - 1));
      }
    }
  }

  lemma RowsAgree(rows: seq<TreeRow>, gaps: nat -> nat -> nat, lines: seq<string>, k: nat, host: string)
    requires PrintedTree(rows, gaps, lines) && k < |rows| && host != ""
    ensures Under(lines, k, host) <==> k in OSDsUnder(rows, host)
    ensures Under(lines, k, host) && MarkedUp(lines[k]) <==> k in UpUnder(rows, host)
  {
    hide HostLine, Proper, Cells, RowText, MarkedUp, Contains;
    HostsAgree(rows, gaps, lines, k);
    match rows[k]
    case HostRow(_, _, _) => HostRowRead(rows[k], gaps(k));
    case OSDRow(_, _, _, _) => OSDRowRead(rows[k], gaps(k));
    case OtherRow(_) => OtherRowRead(rows[k], gaps(k));
  }

  function Below(ks: set<nat>, n: nat): set<nat> {
    set k | k in ks && k < n
  }

  lemma OneMoreBelow(ks: set<nat>, n: nat)
    ensures |Below(ks, n + 1)| == |Below(ks, n)| + if n in ks then 1 else 0
  {
    assert Below(ks, n + 1) == if n in ks then Below(ks, n) + {n} else Below(ks, n);
  }

  lemma {:induction false} TotalsAgree(rows: seq<TreeRow>, gaps: nat -> nat -> nat, lines: seq<string>, n: nat,
                                       host: string)
    requires PrintedTree(rows, gaps, lines) && |lines| == |rows| && n <= |rows| && host != ""
    ensures CountUnder(lines, n, host) == |Below(OSDsUnder(rows, host), n)|
  {
    hide Under, MarkedUp, OSDsUnder, UpUnder, PrintedTree, Below;
    if n > 0 {
      TotalsAgree(rows, gaps, lines, n - 1, host);
      RowsAgree(rows, gaps, lines, n - 1, host);
      OneMoreBelow(OSDsUnder(rows, host), n - 1);
    } else {
      NothingBelow(OSDsUnder(rows, host));
    }
  }

  lemma {:induction false} UpsAgree(rows: seq<TreeRow>, gaps: nat -> nat -> nat, lines: seq<string>, n: nat,
                                    host: string)
    requires PrintedTree(rows, gaps, lines) && |lines| == |rows| && n <= |rows| && host != ""
    ensures CountUp(lines, n, host) == |Below(UpUnder(rows, host), n)|
  {
    hide Under, MarkedUp, OSDsUnder, UpUnder, PrintedTree, Below, CountUnder;
    if n > 0 {
      UpsAgree(rows, gaps, lines, n - 1, host);
      RowsAgree(rows, gaps, lines, n - 1, host);
      OneMoreBelow(UpUnder(rows, host), n - 1);
    } else {
      NothingBelow(UpUnder(rows, host));
    }
  }

  lemma NothingBelow(ks: set<nat>)
    ensures Below(ks, 0) == {}
  {
  }

  /** What awk counts for a host is the number of OSD rows under it in the printed table, and of those that say up. */
  lemma TreeCounts(rows: seq<TreeRow>, gaps: nat -> nat -> nat, lines: seq<string>, host: string)
    requires PrintedTree(rows, gaps, lines) && host != ""
    ensures CountUnder(lines, |lines|, host) == |OSDsUnder(rows, host)|
    ensures CountUp(lines, |lines|, host) == |UpUnder(rows, host)|
  {
    TotalsAgree(rows, gaps, lines, |rows|, host);
    UpsAgree(rows, gaps, lines, |rows|, host);
    assert Below(OSDsUnder(rows, host), |rows|) == OSDsUnder(rows, host);
    assert Below(UpUnder(rows, host), |rows|) == UpUnder(rows, host);
  }
}
