/**
 * The KEY=VALUE file that keeps an app's secrets: reading it, printing it, and
 * what a printed file loads to when the disk lost part of the prints. The source
 * drops the error of every print and renames the file all the same.
 */
module SecretsFile {
  import opened Text

  type Values = map<string, string>

  // ---- reading ------------------------------------------------------------

  datatype Entry = Entry(key: string, value: string) {
    function Line(): string { key + "=" + value }
  }

  function ParseLine(line: string): Option<Entry> {
    var t := TrimSpace(line);
    if t == "" || t[0] == '#' then None
    else
      var eq := IndexOf(t, '=');
      if eq == |t| then None else Some(Entry(t[..eq], t[eq + 1..]))
  }

  /** Later lines win. */
  function LoadLines(lines: seq<string>): Values {
    if lines == [] then map[]
    else
      var before := LoadLines(lines[..|lines| - 1]);
      match ParseLine(lines[|lines| - 1])
      case None => before
      case Some(e) => before[e.key := e.value]
  }

  /** The stored secrets; a missing file holds none. */
  function Load(file: Option<string>): Values {
    if file.None? then map[] else LoadLines(Split(file.value, '\n'))
  }

  // ---- writing ------------------------------------------------------------

  const HEADER: string := "# PowerLab install-time secrets — DO NOT commit, DO NOT share."

  const HINT: string := "# Auto-generated; delete the file to rotate on next install."

  /** What reaches the file of a print of which it takes `n` characters. */
  function Kept(text: string, n: nat): string {
    if n < |text| then text[..n] else text
  }

  /** The lines, printed one by one; of the k-th print of all, kept(k) characters reach the file. */
  function Printed(lines: seq<string>, kept: nat -> nat, k: nat): string {
    if lines == [] then "" else Kept(lines[0] + "\n", kept(k)) + Printed(lines[1..], kept, k + 1)
  }

  function EntryLines(values: Values, order: seq<string>): seq<string>
    requires forall k :: k in order ==> k in values
  {
    seq(|order|, i requires 0 <= i < |order| => Entry(order[i], values[order[i]]).Line())
  }

  /** The file text, with the entries in the given order. */
  function Print(values: Values, order: seq<string>, kept: nat -> nat): string
    requires forall k :: k in order ==> k in values
  {
    Printed([HEADER, HINT] + EntryLines(values, order), kept, 0)
  }

  /** The lines of a file so printed: a print cut before its newline runs into the next. */
  function Joined(open: string, lines: seq<string>, kept: nat -> nat, k: nat): seq<string>
    decreases |lines|
  {
    if lines == [] then [open]
    else if kept(k) > |lines[0]| then [open + lines[0]] + Joined("", lines[1..], kept, k + 1)
    else Joined(open + lines[0][..kept(k)], lines[1..], kept, k + 1)
  }

  lemma {:induction false} SplitPrinted(open: string, lines: seq<string>, kept: nat -> nat, k: nat)
    requires '\n' !in open && forall i :: 0 <= i < |lines| ==> '\n' !in lines[i]
    ensures Split(open + Printed(lines, kept, k), '\n') == Joined(open, lines, kept, k)
    decreases |lines|
  {
    hide Split;
    if lines == [] {
      assert open + "" == open;
      SplitOne(open, '\n');
    } else {
      var line, rest := lines[0], Printed(lines[1..], kept, k + 1);
      if kept(k) > |line| {
        SplitPrinted("", lines[1..], kept, k + 1);
        assert open + (line + "\n" + rest) == (open + line) + ['\n'] + rest && "" + rest == rest;
        SplitLine(open + line, rest, '\n');
      } else {
        SplitPrinted(open + line[..kept(k)], lines[1..], kept, k + 1);
        assert (line + "\n")[..kept(k)] == line[..kept(k)];
        assert open + (line[..kept(k)] + rest) == open + line[..kept(k)] + rest;
      }
    }
  }

  // ---- what a line yields -------------------------------------------------

  /** An entry that survives being written and read as a line. */
  predicate Clean(e: Entry) {
    Trimmed(e.Line()) && e.Line()[0] != '#' && '=' !in e.key && '\n' !in e.Line()
  }

  ghost predicate CleanValues(values: Values) {
    forall k :: k in values ==> Clean(Entry(k, values[k]))
  }

  lemma {:induction false} IndexOfFirst(a: string, c: char, b: string)
    requires c !in a
    ensures IndexOf(a + [c] + b, c) == |a|
  {
    var s := a + [c] + b;
    var i := IndexOf(s, c);
    assert s[|a|] == c;
    assert forall j :: 0 <= j < |a| ==> s[j] == a[j];
  }

  /** The line is an entry, with white space around it. */
  ghost predicate Spells(line: string, e: Entry) {
    && '=' !in e.key && Trimmed(e.Line()) && e.Line()[0] != '#'
    && exists a, b :: AllSpace(a) && AllSpace(b) && line == a + e.Line() + b
  }

  lemma EntrySplits(e: Entry)
    requires '=' !in e.key
    ensures IndexOf(e.Line(), '=') == |e.key|
    ensures e.Line()[..|e.key|] == e.key && e.Line()[|e.key| + 1..] == e.value
  {
    IndexOfFirst(e.key, '=', e.value);
  }

  /** A line yields what it spells, and nothing when it is blank, a comment or has no equals sign. */
  lemma ParseLineIff(line: string, e: Entry)
    ensures ParseLine(line) == Some(e) <==> Spells(line, e)
  {
    hide TrimSpace, AllSpace, ParseLine;
    if ParseLine(line) == Some(e) {
      ParsedIsTrimmed(line, e);
      var a, b := SpaceTaken(line);
    }
    if Spells(line, e) {
      SpelledIsParsed(line, e);
    }
  }

  lemma SpelledIsParsed(line: string, e: Entry)
    requires Spells(line, e)
    ensures ParseLine(line) == Some(e)
  {
    hide TrimSpace, AllSpace, IndexOf, IsSpace;
    var a, b :| AllSpace(a) && AllSpace(b) && line == a + e.Line() + b;
    TrimTakesSpace(a, e.Line(), b);
    EntrySplits(e);
    hide Spells, Trimmed;
    assert TrimSpace(line) == e.Line();
  }

  lemma ParsedIsTrimmed(line: string, e: Entry)
    requires ParseLine(line) == Some(e)
    ensures TrimSpace(line) == e.Line() && '=' !in e.key && Trimmed(e.Line()) && e.Line()[0] != '#'
  {
    hide TrimSpace, IsSpace;
    var t := TrimSpace(line);
    var eq := IndexOf(t, '=');
    hide IndexOf;
    assert t == t[..eq] + "=" + t[eq + 1..];
  }

  lemma CleanReads(e: Entry)
    requires Clean(e)
    ensures ParseLine(e.Line()) == Some(e)
  {
    IndexOfFirst(e.key, '=', e.value);
    assert e.Line()[..|e.key|] == e.key && e.Line()[|e.key| + 1..] == e.value;
  }

  /** Whatever a line gives is clean. */
  lemma ParsedIsClean(line: string)
    requires '\n' !in line && ParseLine(line).Some?
    ensures Clean(ParseLine(line).value)
  {
    var t := TrimSpace(line);
    hide TrimSpace;
    var e := ParseLine(line).value;
    var eq := IndexOf(t, '=');
    hide IndexOf;
    assert t == t[..eq] + "=" + t[eq + 1..];
    assert t == e.Line();
    assert '\n' !in t;
  }

  lemma {:induction false} LoadLinesIsClean(lines: seq<string>)
    requires forall i :: 0 <= i < |lines| ==> '\n' !in lines[i]
    ensures CleanValues(LoadLines(lines))
  {
    if lines != [] {
      LoadLinesIsClean(lines[..|lines| - 1]);
      if ParseLine(lines[|lines| - 1]).Some? {
        ParsedIsClean(lines[|lines| - 1]);
      }
    }
  }

  lemma LoadIsClean(file: Option<string>)
    ensures CleanValues(Load(file))
  {
    if file.Some? {
      SplitJoin(file.value, '\n');
      LoadLinesIsClean(Split(file.value, '\n'));
    }
  }

  lemma {:induction false} LoadLinesAppend(a: seq<string>, line: string)
    ensures LoadLines(a + [line]) == match ParseLine(line)
                                     case None => LoadLines(a)
                                     case Some(e) => LoadLines(a)[e.key := e.value]
  {
    assert (a + [line])[..|a|] == a;
  }

  predicate Comment(line: string) {
    line != "" && line[0] == '#' && '\n' !in line
  }

  lemma CommentsAtTop()
    ensures Comment(HEADER) && Comment(HINT)
  {
    var h, g := "# PowerLab install-time secrets", "# Auto-generated; delete the file";
    forall i | 0 <= i < |HEADER| ensures HEADER[i] != '\n' && (i == 0 ==> HEADER[i] == '#') {
      if i < |h| {
        assert HEADER[i] == h[i];
      }
    }
    forall i | 0 <= i < |HINT| ensures HINT[i] != '\n' && (i == 0 ==> HINT[i] == '#') {
      if i < |g| {
        assert HINT[i] == g[i];
      }
    }
  }

  lemma {:induction false} TrimKeepsFirst(s: string)
    requires s != "" && !IsSpace(s[0])
    ensures TrimRight(s) != "" && TrimRight(s)[0] == s[0]
  {
    if |s| > 1 && IsSpace(s[|s| - 1]) {
      TrimKeepsFirst(s[..|s| - 1]);
    }
  }

  lemma CommentsAreSkipped(line: string)
    requires Comment(line)
    ensures ParseLine(line).None?
  {
    TrimKeepsFirst(line);
  }

  /** Lines that yield nothing, in front of others. */
  lemma {:induction false} LoadBehind(head: seq<string>, lines: seq<string>)
    requires forall i :: 0 <= i < |head| ==> ParseLine(head[i]).None?
    ensures LoadLines(head + lines) == LoadLines(lines)
  {
    hide ParseLine;
    if lines == [] {
      assert head + lines == head;
      LoadNothing(head);
    } else {
      var init, last := lines[..|lines| - 1], lines[|lines| - 1];
      LoadBehind(head, init);
      assert head + lines == head + init + [last];
      LoadLinesAppend(head + init, last);
    }
  }

  lemma {:induction false} LoadNothing(lines: seq<string>)
    requires forall i :: 0 <= i < |lines| ==> ParseLine(lines[i]).None?
    ensures LoadLines(lines) == map[]
  {
    hide ParseLine;
    if lines != [] {
      LoadNothing(lines[..|lines| - 1]);
    }
  }

  // ---- nothing cut that matters -------------------------------------------

  /** Every line is whole, but for the newline of the last. */
  predicate BodyIntact(lines: seq<string>, kept: nat -> nat, k: nat) {
    forall i :: 0 <= i < |lines| ==> kept(k + i) >= |lines[i]| + if i == |lines| - 1 then 0 else 1
  }

  /** No rest of a comment runs into the first entry. */
  predicate CommentsApart(h: string, g: string, kept: nat -> nat) {
    kept(1) > |g| || (kept(1) == 0 && (kept(0) == 0 || kept(0) > |h|))
  }

  /**
   * What of the prints has to reach the file: the entries, up to the last newline,
   * and no part of a comment before them.
   */
  predicate Intact(values: Values, order: seq<string>, kept: nat -> nat)
    requires forall k :: k in order ==> k in values
  {
    order != [] ==> CommentsApart(HEADER, HINT, kept) && BodyIntact(EntryLines(values, order), kept, 2)
  }

  lemma NothingYieldsNothing()
    ensures ParseLine("").None?
  {
  }

  lemma LineIntact(lines: seq<string>, kept: nat -> nat, k: nat)
    requires lines != [] && BodyIntact(lines, kept, k)
    ensures BodyIntact(lines[1..], kept, k + 1)
    ensures kept(k) >= |lines[0]| && (kept(k) == |lines[0]| ==> |lines| == 1)
  {
    var rest := lines[1..];
    assert kept(k + 0) >= |lines[0]| + if 0 == |lines| - 1 then 0 else 1;
    forall i | 0 <= i < |rest| ensures kept(k + 1 + i) >= |rest[i]| + if i == |rest| - 1 then 0 else 1 {
      assert kept(k + (i + 1)) >= |lines[i + 1]| + if i + 1 == |lines| - 1 then 0 else 1;
    }
  }

  lemma {:induction false} LoadEntries(before: seq<string>, values: Values, order: seq<string>, kept: nat -> nat,
                                       k: nat)
    requires (forall x :: x in order ==> x in values) && CleanValues(values)
    requires BodyIntact(EntryLines(values, order), kept, k)
    ensures LoadLines(before + Joined("", EntryLines(values, order), kept, k))
         == LoadLines(before) + map x | x in order :: values[x]
    decreases order
  {
    hide LoadLines, ParseLine, Clean;
    if order == [] {
      NothingYieldsNothing();
      LoadLinesAppend(before, "");
    } else {
      var e := Entry(order[0], values[order[0]]);
      var lines := EntryLines(values, order);
      assert lines[1..] == EntryLines(values, order[1..]) && lines[0] == e.Line();
      assert Clean(e);
      CleanReads(e);
      LoadLinesAppend(before, e.Line());
      assert "" + e.Line() == e.Line() && order == [order[0]] + order[1..];
      LineIntact(lines, kept, k);
      hide BodyIntact, EntryLines;
      if kept(k) > |e.Line()| {
        LoadEntries(before + [e.Line()], values, order[1..], kept, k + 1);
        assert before + ([e.Line()] + Joined("", lines[1..], kept, k + 1))
            == before + [e.Line()] + Joined("", lines[1..], kept, k + 1);
      } else {
        assert lines[1..] == [] && e.Line()[..kept(k)] == e.Line();
        assert Joined("", lines, kept, k) == [e.Line()];
      }
    }
  }

  // ---- anything else cut loses a secret -----------------------------------

  /** The length of the lines that yield an entry, each with its newline. */
  function Weight(lines: seq<string>): nat {
    if lines == [] then 0
    else (if ParseLine(lines[0]).Some? then |lines[0]| + 1 else 0) + Weight(lines[1..])
  }

  function Length(lines: seq<string>): nat {
    if lines == [] then 0 else |lines[0]| + 1 + Length(lines[1..])
  }

  lemma {:induction false} WeightAppend(a: seq<string>, b: seq<string>)
    ensures Weight(a + b) == Weight(a) + Weight(b)
  {
    hide ParseLine;
    if a == [] {
      assert a + b == b;
    } else {
      WeightAppend(a[1..], b);
      assert (a + b)[1..] == a[1..] + b;
    }
  }

  lemma {:induction false} LengthWithout(lines: seq<string>, i: nat)
    requires i < |lines|
    ensures Length(lines) == Length(lines[..i] + lines[i + 1..]) + |lines[i]| + 1
  {
    var rest := lines[..i] + lines[i + 1..];
    if i == 0 {
      assert rest == lines[1..];
    } else {
      LengthWithout(lines[1..], i - 1);
      assert rest[1..] == lines[1..][..i - 1] + lines[1..][i..];
    }
  }

  /** Entries take at least their own length to load. */
  lemma {:induction false} LoadTakesLength(lines: seq<string>, values: Values, order: seq<string>)
    requires forall k :: k in order ==> k in values && k in LoadLines(lines) && LoadLines(lines)[k] == values[k]
    requires forall i, j :: 0 <= i < j < |order| ==> order[i] != order[j]
    ensures Length(EntryLines(values, order)) <= Weight(lines)
    decreases lines
  {
    hide ParseLine;
    if lines == [] {
      SomeElement(order);
    } else {
      var init, last := lines[..|lines| - 1], lines[|lines| - 1];
      assert lines == init + [last];
      WeightAppend(init, [last]);
      LoadLinesAppend(init, last);
      var e := ParseLine(last);
      if e.Some? && e.value.key in order {
        var i :| 0 <= i < |order| && order[i] == e.value.key;
        WithoutOne(order, i);
        LoadTakesLength(init, values, order[..i] + order[i + 1..]);
        OneEntryLess(values, order, i);
        ParsedIsNoLonger(last);
      } else {
        LoadTakesLength(init, values, order);
      }
    }
  }

  lemma SomeElement(order: seq<string>)
    ensures order != [] ==> exists k :: k in order
  {
    if order != [] {
      assert order[0] in order;
    }
  }

  lemma WithoutOne(order: seq<string>, i: nat)
    requires i < |order| && forall j, k :: 0 <= j < k < |order| ==> order[j] != order[k]
    ensures var rest := order[..i] + order[i + 1..];
            && (forall k :: k in rest ==> k in order && k != order[i])
            && forall j, k :: 0 <= j < k < |rest| ==> rest[j] != rest[k]
  {
    var rest := order[..i] + order[i + 1..];
    forall k | k in rest ensures k in order && k != order[i] {
      var j :| 0 <= j < |rest| && rest[j] == k;
      assert rest[j] == order[if j < i then j else j + 1];
    }
  }

  lemma OneEntryLess(values: Values, order: seq<string>, i: nat)
    requires i < |order| && forall k :: k in order ==> k in values
    ensures Length(EntryLines(values, order))
         == Length(EntryLines(values, order[..i] + order[i + 1..])) + |Entry(order[i], values[order[i]]).Line()| + 1
  {
    var lines := EntryLines(values, order);
    assert EntryLines(values, order[..i] + order[i + 1..]) == lines[..i] + lines[i + 1..];
    LengthWithout(lines, i);
  }

  lemma ParsedIsNoLonger(line: string)
    requires ParseLine(line).Some?
    ensures |ParseLine(line).value.Line()| <= |line|
  {
    hide TrimSpace;
  }

  /** The last line printed has its newline. */
  predicate EndsWhole(lines: seq<string>, kept: nat -> nat, k: nat) {
    lines != [] ==> kept(k + |lines| - 1) > |lines[|lines| - 1]|
  }

  lemma EndsWholeRest(lines: seq<string>, kept: nat -> nat, k: nat)
    requires |lines| > 1
    ensures EndsWhole(lines, kept, k) == EndsWhole(lines[1..], kept, k + 1)
  {
    assert k + |lines| - 1 == k + 1 + |lines[1..]| - 1;
    assert lines[|lines| - 1] == lines[1..][|lines[1..]| - 1];
  }

  /** What is joined is no longer than what was kept. */
  lemma {:induction false} JoinedWeight(open: string, lines: seq<string>, kept: nat -> nat, k: nat)
    ensures Weight(Joined(open, lines, kept, k)) <= |open| + |Printed(lines, kept, k)| + 1
    ensures EndsWhole(lines, kept, k) && (lines != [] || open == "") ==>
              Weight(Joined(open, lines, kept, k)) <= |open| + |Printed(lines, kept, k)|
    decreases |lines|
  {
    hide ParseLine;
    NothingYieldsNothing();
    if lines == [] {
      WeightOne(open);
    } else {
      if |lines| > 1 {
        EndsWholeRest(lines, kept, k);
      }
      if kept(k) > |lines[0]| {
        JoinedWeight("", lines[1..], kept, k + 1);
        WeightCons(open + lines[0], Joined("", lines[1..], kept, k + 1));
      } else {
        JoinedWeight(open + lines[0][..kept(k)], lines[1..], kept, k + 1);
      }
    }
  }

  lemma WeightOne(line: string)
    ensures Weight([line]) == if ParseLine(line).Some? then |line| + 1 else 0
  {
    hide ParseLine;
    assert Weight([]) == 0;
  }

  lemma WeightCons(line: string, lines: seq<string>)
    ensures Weight([line] + lines) == (if ParseLine(line).Some? then |line| + 1 else 0) + Weight(lines)
  {
    hide ParseLine;
    assert ([line] + lines)[1..] == lines;
  }

  /** Cutting more than the last newline leaves too little. */
  lemma {:induction false} Shortfall(lines: seq<string>, kept: nat -> nat, k: nat)
    ensures var missing := if EndsWhole(lines, kept, k) then 0 else 1;
            && |Printed(lines, kept, k)| + missing <= Length(lines)
            && (!BodyIntact(lines, kept, k) ==> |Printed(lines, kept, k)| + missing < Length(lines))
    decreases |lines|
  {
    if lines != [] {
      Shortfall(lines[1..], kept, k + 1);
      if |lines| > 1 {
        EndsWholeRest(lines, kept, k);
        BodyIntactRest(lines, kept, k);
      }
    }
  }

  lemma BodyIntactRest(lines: seq<string>, kept: nat -> nat, k: nat)
    requires |lines| > 1
    ensures BodyIntact(lines, kept, k) <==> kept(k) > |lines[0]| && BodyIntact(lines[1..], kept, k + 1)
  {
    var rest := lines[1..];
    if BodyIntact(lines, kept, k) {
      forall i | 0 <= i < |rest| ensures kept(k + 1 + i) >= |rest[i]| + if i == |rest| - 1 then 0 else 1 {
        assert kept(k + (i + 1)) >= |lines[i + 1]| + if i + 1 == |lines| - 1 then 0 else 1;
      }
      assert kept(k + 0) >= |lines[0]| + if 0 == |lines| - 1 then 0 else 1;
    }
    if kept(k) > |lines[0]| && BodyIntact(rest, kept, k + 1) {
      forall i | 0 <= i < |lines| ensures kept(k + i) >= |lines[i]| + if i == |lines| - 1 then 0 else 1 {
        if i > 0 {
          assert kept(k + 1 + (i - 1)) >= |rest[i - 1]| + if i - 1 == |rest| - 1 then 0 else 1;
        }
      }
    }
  }

  /** The rest of a comment swallows the line it runs into. */
  lemma {:induction false} CommentSwallows(open: string, lines: seq<string>, kept: nat -> nat, k: nat)
    requires Comment(open)
    requires forall i :: 0 <= i < |lines| ==> lines[i] != "" && '\n' !in lines[i]
    ensures lines != [] ==> Weight(Joined(open, lines, kept, k)) < Length(lines)
    ensures lines == [] ==> Weight(Joined(open, lines, kept, k)) == 0
    decreases |lines|
  {
    hide ParseLine;
    if lines == [] {
      CommentsAreSkipped(open);
      WeightOne(open);
    } else if kept(k) > |lines[0]| {
      CommentsAreSkipped(open + lines[0]);
      JoinedWeight("", lines[1..], kept, k + 1);
      Shortfall(lines[1..], kept, k + 1);
      WeightCons(open + lines[0], Joined("", lines[1..], kept, k + 1));
    } else {
      CommentSwallows(open + lines[0][..kept(k)], lines[1..], kept, k + 1);
    }
  }

  /** What two comments in front come to: whole lines that yield nothing, and a rest that runs on. */
  lemma CommentsJoin(h: string, g: string, lines: seq<string>, kept: nat -> nat)
    returns (head: seq<string>, open: string)
    requires Comment(h) && Comment(g)
    ensures Joined("", [h, g] + lines, kept, 0) == head + Joined(open, lines, kept, 2)
    ensures forall i :: 0 <= i < |head| ==> ParseLine(head[i]).None?
    ensures if CommentsApart(h, g, kept) then open == "" else Comment(open)
  {
    hide ParseLine, Joined;
    var all := [h, g] + lines;
    assert all[1..] == [g] + lines && all[1..][1..] == lines;
    JoinedOne("", all, kept, 0);
    var first := if kept(0) > |h| then [h] else [];
    var rest := if kept(0) > |h| then "" else h[..kept(0)];
    assert "" + h == h && "" + h[..Least(kept(0), |h|)] == h[..Least(kept(0), |h|)];
    JoinedOne(rest, all[1..], kept, 1);
    CommentsAreSkipped(h);
    if kept(1) > |g| {
      CommentsAreSkipped(rest + g);
      head, open := first + [rest + g], "";
      assert first + ([rest + g] + Joined("", lines, kept, 2)) == head + Joined("", lines, kept, 2);
    } else {
      head, open := first, rest + g[..kept(1)];
    }
  }

  function Least(a: nat, b: nat): nat { if a < b then a else b }

  lemma JoinedOne(open: string, lines: seq<string>, kept: nat -> nat, k: nat)
    requires lines != []
    ensures Joined(open, lines, kept, k)
         == if kept(k) > |lines[0]| then [open + lines[0]] + Joined("", lines[1..], kept, k + 1)
            else Joined(open + lines[0][..kept(k)], lines[1..], kept, k + 1)
  {
  }

  lemma IntactLoads(values: Values, order: seq<string>, kept: nat -> nat, open: string)
    requires CleanValues(values) && IsOrderOf(order, values.Keys) && Intact(values, order, kept)
    requires if order == [] then open == "" || Comment(open) else open == ""
    ensures LoadLines(Joined(open, EntryLines(values, order), kept, 2)) == values
  {
    hide ParseLine, CleanValues;
    if order == [] {
      NothingYieldsNothing();
      if open != "" {
        CommentsAreSkipped(open);
      }
      LoadNothing([open]);
      assert values.Keys == {};
    } else {
      LoadEntries([], values, order, kept, 2);
      hide Joined, LoadLines;
      var lines := Joined("", EntryLines(values, order), kept, 2);
      assert [] + lines == lines;
      assert map[] + (map k | k in order :: values[k]) == values;
      assert LoadLines([]) == map[] by { LoadNothing([]); }
    }
  }

  lemma OtherwiseLoses(values: Values, order: seq<string>, kept: nat -> nat, open: string)
    requires CleanValues(values) && IsOrderOf(order, values.Keys) && !Intact(values, order, kept)
    requires if CommentsApart(HEADER, HINT, kept) then open == "" else Comment(open)
    ensures LoadLines(Joined(open, EntryLines(values, order), kept, 2)) != values
  {
    hide ParseLine, LoadLines, Joined, Length, Weight, Comment, CommentsApart;
    var lines := EntryLines(values, order);
    assert lines != [];
    forall i | 0 <= i < |lines| ensures lines[i] != "" && '\n' !in lines[i] {
      assert Clean(Entry(order[i], values[order[i]]));
    }
    if CommentsApart(HEADER, HINT, kept) {
      JoinedWeight("", lines, kept, 2);
      Shortfall(lines, kept, 2);
    } else {
      CommentSwallows(open, lines, kept, 2);
    }
    if LoadLines(Joined(open, lines, kept, 2)) == values {
      LoadTakesLength(Joined(open, lines, kept, 2), values, order);
    }
  }

  lemma LinesOfPrint(values: Values, order: seq<string>, kept: nat -> nat)
    requires CleanValues(values) && IsOrderOf(order, values.Keys)
    ensures Load(Some(Print(values, order, kept)))
         == LoadLines(Joined("", [HEADER, HINT] + EntryLines(values, order), kept, 0))
  {
    hide LoadLines, Joined, Printed;
    var lines := EntryLines(values, order);
    CommentsAtTop();
    forall i | 0 <= i < |lines| ensures '\n' !in lines[i] {
      assert Clean(Entry(order[i], values[order[i]]));
    }
    hide HEADER, HINT;
    SplitPrinted("", [HEADER, HINT] + lines, kept, 0);
    assert "" + Print(values, order, kept) == Print(values, order, kept);
  }

  // ---- main results -------------------------------------------------------

  /**
   * For every order of printing and every loss: a printed file loads to the
   * values printed if and only if nothing was lost but the last newline, or
   * parts of the comments that keep clear of the first entry.
   */
  lemma LoadPrintIff(values: Values, order: seq<string>, kept: nat -> nat)
    requires CleanValues(values) && IsOrderOf(order, values.Keys)
    ensures Load(Some(Print(values, order, kept))) == values <==> Intact(values, order, kept)
  {
    LinesOfPrint(values, order, kept);
    CommentsAtTop();
    hide ParseLine, Load, LoadLines, Joined, Print, CleanValues, IsOrderOf, Comment, CommentsApart, BodyIntact;
    hide HEADER, HINT;
    var lines := EntryLines(values, order);
    var head, open := CommentsJoin(HEADER, HINT, lines, kept);
    LoadBehind(head, Joined(open, lines, kept, 2));
    if Intact(values, order, kept) {
      IntactLoads(values, order, kept, open);
    } else {
      OtherwiseLoses(values, order, kept, open);
    }
  }

  /**
   * For any file text whatever: printing what it loads to, and loading that, gives
   * the same, just when the print is intact.
   */
  lemma ReprintedFileLoadsTheSame(file: Option<string>, order: seq<string>, kept: nat -> nat)
    requires IsOrderOf(order, Load(file).Keys)
    ensures Load(Some(Print(Load(file), order, kept))) == Load(file) <==> Intact(Load(file), order, kept)
  {
    LoadIsClean(file);
    LoadPrintIff(Load(file), order, kept);
  }

  // ---- a disk that is full from some point on -----------------------------

  predicate NoneKept(lines: seq<string>, kept: nat -> nat, k: nat) {
    lines == [] || (kept(k) == 0 && NoneKept(lines[1..], kept, k + 1))
  }

  /** Once a print is not whole, nothing of the later ones reaches the file. */
  predicate Truncated(lines: seq<string>, kept: nat -> nat, k: nat) {
    lines != [] ==>
      if kept(k) > |lines[0]| then Truncated(lines[1..], kept, k + 1) else NoneKept(lines[1..], kept, k + 1)
  }

  lemma {:induction false} NoneKeptAt(lines: seq<string>, kept: nat -> nat, k: nat, i: nat)
    requires NoneKept(lines, kept, k) && i < |lines|
    ensures kept(k + i) == 0
  {
    if i > 0 {
      NoneKeptAt(lines[1..], kept, k + 1, i - 1);
    }
  }

  lemma {:induction false} NothingMore(open: string, lines: seq<string>, kept: nat -> nat, k: nat)
    requires NoneKept(lines, kept, k)
    ensures Joined(open, lines, kept, k) == [open]
    decreases |lines|
  {
    if lines != [] {
      assert open + lines[0][..0] == open;
      NothingMore(open, lines[1..], kept, k + 1);
    }
  }

  lemma TrimIsPrefix(s: string)
    requires s != "" && !IsSpace(s[0])
    ensures TrimSpace(s) <= s && TrimSpace(s) != "" && TrimSpace(s)[0] == s[0]
  {
    TrimKeepsFirst(s);
  }

  /** Where the key ends in the start of a line. */
  lemma StartSplits(e: Entry, t: string)
    requires '=' !in e.key && t <= e.Line()
    ensures IndexOf(t, '=') == if |t| > |e.key| then |e.key| else |t|
    ensures |t| > |e.key| ==> t[..|e.key|] == e.key
  {
    hide IndexOf;
    var i := IndexOf(t, '=');
    assert forall j :: 0 <= j < |e.key| && j < |t| ==> t[j] == e.Line()[j] == e.key[j];
    if |t| > |e.key| {
      assert t[|e.key|] == e.Line()[|e.key|] == '=';
    }
  }

  /** The start of an entry's line yields nothing, or its key with a shorter value. */
  lemma StartYields(e: Entry, c: nat)
    requires Clean(e) && c < |e.Line()|
    ensures var got := ParseLine(e.Line()[..c]);
            got.Some? ==> got.value.key == e.key && got.value.value != e.value
  {
    var start := e.Line()[..c];
    if start == "" {
      NothingYieldsNothing();
    } else {
      assert start[0] == e.Line()[0];
      TrimIsPrefix(start);
      hide TrimSpace, IndexOf, Trimmed;
      StartSplits(e, TrimSpace(start));
    }
  }

  /** The entry is there again, unchanged. */
  ghost predicate Loads(got: Values, values: Values, name: string) {
    name in values && name in got && got[name] == values[name]
  }

  /** What a truncated list of lines leaves of the first. */
  lemma FirstJoined(values: Values, order: seq<string>, kept: nat -> nat, k: nat)
    requires order != [] && (forall x :: x in order ==> x in values)
    requires Truncated(EntryLines(values, order), kept, k)
    ensures var e, rest := Entry(order[0], values[order[0]]), EntryLines(values, order[1..]);
            && EntryLines(values, order) == [e.Line()] + rest
            && if kept(k) > |e.Line()|
               then Truncated(rest, kept, k + 1)
                    && Joined("", EntryLines(values, order), kept, k) == [e.Line()] + Joined("", rest, kept, k + 1)
               else NoneKept(rest, kept, k + 1)
                    && Joined("", EntryLines(values, order), kept, k) == [e.Line()[..kept(k)]]
  {
    var e, lines := Entry(order[0], values[order[0]]), EntryLines(values, order);
    assert EntryLines(values, order[1..]) == lines[1..];
    hide Joined;
    JoinedOne("", lines, kept, k);
    assert "" + e.Line() == e.Line();
    if kept(k) <= |e.Line()| {
      assert "" + e.Line()[..kept(k)] == e.Line()[..kept(k)];
      NothingMore(e.Line()[..kept(k)], lines[1..], kept, k + 1);
    }
  }

  lemma EntryIsClean(values: Values, k: string)
    requires CleanValues(values) && k in values
    ensures Clean(Entry(k, values[k]))
  {
  }

  /** What one more line, whole or cut, does to what was loaded. */
  lemma CutLoads(before: seq<string>, e: Entry, c: nat)
    requires Clean(e) && c <= |e.Line()|
    ensures var was, got := LoadLines(before), LoadLines(before + [e.Line()[..c]]);
            && (forall x :: x != e.key ==> (x in got <==> x in was) && (x in was ==> got[x] == was[x]))
            && (e.key !in was ==> (e.key in got && got[e.key] == e.value <==> c == |e.Line()|))
  {
    LoadLinesAppend(before, e.Line()[..c]);
    if c < |e.Line()| {
      StartYields(e, c);
    } else {
      assert e.Line()[..c] == e.Line();
      CleanReads(e);
    }
    hide LoadLines, ParseLine, Clean;
  }

  /** No other name comes or goes. */
  lemma {:induction false} OthersStay(before: seq<string>, values: Values, order: seq<string>, kept: nat -> nat, k: nat,
                                      x: string)
    requires (forall y :: y in order ==> y in values) && CleanValues(values) && x !in order
    requires Truncated(EntryLines(values, order), kept, k)
    ensures var was, got := LoadLines(before), LoadLines(before + Joined("", EntryLines(values, order), kept, k));
            (x in got <==> x in was) && (x in was ==> got[x] == was[x])
    decreases order
  {
    hide LoadLines, ParseLine, Clean, CleanValues, Joined, Truncated, EntryLines;
    if order == [] {
      NoEntries(before, values, kept, k);
    } else {
      var e, rest := Entry(order[0], values[order[0]]), EntryLines(values, order[1..]);
      FirstJoined(values, order, kept, k);
      EntryIsClean(values, order[0]);
      if kept(k) > |e.Line()| {
        CutLoads(before, e, |e.Line()|);
        assert e.Line()[..|e.Line()|] == e.Line();
        OthersStay(before + [e.Line()], values, order[1..], kept, k + 1, x);
        var joined := Joined("", rest, kept, k + 1);
        assert before + ([e.Line()] + joined) == before + [e.Line()] + joined;
      } else {
        CutLoads(before, e, kept(k));
      }
    }
  }

  lemma NoEntries(before: seq<string>, values: Values, kept: nat -> nat, k: nat)
    ensures LoadLines(before + Joined("", EntryLines(values, []), kept, k)) == LoadLines(before)
  {
    NothingYieldsNothing();
    LoadLinesAppend(before, "");
    assert EntryLines(values, []) == [];
    hide LoadLines, ParseLine;
  }

  /** Of entries so printed, those load whose whole line is there. */
  lemma {:induction false} LoadTruncated(before: seq<string>, values: Values, order: seq<string>, kept: nat -> nat,
                                         k: nat,
                                         i: nat)
    requires (forall x :: x in order ==> x in values) && CleanValues(values)
    requires forall m, n :: 0 <= m < n < |order| ==> order[m] != order[n]
    requires Truncated(EntryLines(values, order), kept, k) && i < |order| && order[i] !in LoadLines(before)
    ensures Loads(LoadLines(before + Joined("", EntryLines(values, order), kept, k)), values, order[i])
       <==> kept(k + i) >= |EntryLines(values, order)[i]|
    decreases order
  {
    hide LoadLines, ParseLine, Clean, CleanValues, Joined, Truncated;
    var e, rest := Entry(order[0], values[order[0]]), EntryLines(values, order[1..]);
    FirstJoined(values, order, kept, k);
    EntryIsClean(values, order[0]);
    if kept(k) > |e.Line()| {
      var now, joined := before + [e.Line()], Joined("", rest, kept, k + 1);
      CutLoads(before, e, |e.Line()|);
      assert e.Line()[..|e.Line()|] == e.Line();
      assert before + ([e.Line()] + joined) == now + joined;
      if i == 0 {
        assert order[0] !in order[1..];
        OthersStay(now, values, order[1..], kept, k + 1, order[0]);
      } else {
        LoadTruncated(now, values, order[1..], kept, k + 1, i - 1);
      }
    } else {
      CutLoads(before, e, kept(k));
      if i > 0 {
        NoneKeptAt(rest, kept, k + 1, i - 1);
        assert rest[i - 1] == Entry(order[i], values[order[i]]).Line();
      }
    }
  }

  lemma TruncatedEntries(values: Values, order: seq<string>, kept: nat -> nat, open: string, whole: bool, i: nat)
    requires CleanValues(values) && IsOrderOf(order, values.Keys) && i < |order|
    requires if whole then open == "" && Truncated(EntryLines(values, order), kept, 2)
             else (open == "" || Comment(open)) && NoneKept(EntryLines(values, order), kept, 2)
    ensures Loads(LoadLines(Joined(open, EntryLines(values, order), kept, 2)), values, order[i])
       <==> kept(2 + i) >= |EntryLines(values, order)[i]|
  {
    hide ParseLine, LoadLines, Joined, CleanValues, Comment, Loads, Truncated, NoneKept;
    var lines := EntryLines(values, order);
    assert LoadLines([]) == map[] by { LoadNothing([]); }
    if whole {
      LoadTruncated([], values, order, kept, 2, i);
      assert [] + Joined("", lines, kept, 2) == Joined("", lines, kept, 2);
    } else {
      NothingMore(open, lines, kept, 2);
      NoneKeptAt(lines, kept, 2, i);
      RestYieldsNothing(open);
      LoadNothing([open]);
      NothingLoads(values, order[i]);
    }
  }

  /**
   * When the disk is full from some point of the printing on, an entry is there
   * again on loading if and only if its whole line, newline apart, was printed.
   */
  lemma TruncatedLoadsIff(values: Values, order: seq<string>, kept: nat -> nat, i: nat)
    requires CleanValues(values) && IsOrderOf(order, values.Keys) && i < |order|
    requires Truncated([HEADER, HINT] + EntryLines(values, order), kept, 0)
    ensures Loads(Load(Some(Print(values, order, kept))), values, order[i])
       <==> kept(2 + i) >= |EntryLines(values, order)[i]|
  {
    LinesOfPrint(values, order, kept);
    CommentsAtTop();
    hide ParseLine, Load, LoadLines, Joined, Print, CleanValues, Loads, Truncated, NoneKept, HEADER, HINT, IsOrderOf;
    var lines := EntryLines(values, order);
    hide EntryLines;
    var head, open := CommentsJoin(HEADER, HINT, lines, kept);
    LoadBehind(head, Joined(open, lines, kept, 2));
    AfterComments(HEADER, HINT, lines, kept);
    TruncatedEntries(values, order, kept, open, kept(0) > |HEADER| && kept(1) > |HINT|, i);
  }

  lemma NothingLoads(values: Values, name: string)
    ensures !Loads(map[], values, name)
  {
  }

  lemma RestYieldsNothing(open: string)
    requires open == "" || Comment(open)
    ensures ParseLine(open).None?
  {
    NothingYieldsNothing();
    if open != "" {
      CommentsAreSkipped(open);
    }
  }

  lemma AfterComments(h: string, g: string, lines: seq<string>, kept: nat -> nat)
    requires Truncated([h, g] + lines, kept, 0) && h != ""
    ensures if kept(0) > |h| && kept(1) > |g| then Truncated(lines, kept, 2) else NoneKept(lines, kept, 2)
  {
    var all := [h, g] + lines;
    assert all[1..] == [g] + lines && all[1..][1..] == lines;
  }

  // ---- the loops ----------------------------------------------------------

  method LoadSecretsFile(file: Option<string>) returns (out: Values)
    ensures out == Load(file)
  {
    hide TrimSpace, Split;
    out := map[];
    if file.None? {
      return;
    }
    var lines := Split(file.value, '\n');
    for i := 0 to |lines|
      invariant out == LoadLines(lines[..i])
    {
      assert lines[..i + 1] == lines[..i] + [lines[i]];
      LoadLinesAppend(lines[..i], lines[i]);
      var line := TrimSpace(lines[i]);
      if line == "" || HasPrefix(line, "#") {
        HashIsFirst(line);
        continue;
      }
      HashIsFirst(line);
      var eq := IndexOf(line, '=');
      if eq == |line| {
        continue;
      }
      out := out[line[..eq] := line[eq + 1..]];
    }
    assert lines[..|lines|] == lines;
  }

  lemma HashIsFirst(line: string)
    ensures HasPrefix(line, "#") <==> line != "" && line[0] == '#'
  {
    assert line != "" ==> line[..1] == [line[0]];
  }

  lemma {:induction false} PrintedAppend(lines: seq<string>, line: string, kept: nat -> nat, k: nat)
    ensures Printed(lines + [line], kept, k) == Printed(lines, kept, k) + Kept(line + "\n", kept(k + |lines|))
  {
    hide Kept;
    if lines == [] {
      assert [] + [line] == [line] && [line][1..] == [];
    } else {
      PrintedAppend(lines[1..], line, kept, k + 1);
      assert (lines + [line])[1..] == lines[1..] + [line];
      var first, rest := Kept(lines[0] + "\n", kept(k)), Printed(lines[1..], kept, k + 1);
      var end := Kept(line + "\n", kept(k + |lines|));
      assert first + (rest + end) == first + rest + end;
    }
  }

  lemma OneMorePrint(values: Values, order: seq<string>, k: string, kept: nat -> nat)
    requires k in values && forall x :: x in order ==> x in values
    ensures Print(values, order + [k], kept)
         == Print(values, order, kept) + Kept(Entry(k, values[k]).Line() + "\n", kept(|order| + 2))
  {
    hide Printed, Kept, HEADER, HINT;
    var lines := [HEADER, HINT] + EntryLines(values, order);
    PrintedAppend(lines, Entry(k, values[k]).Line(), kept, 0);
    assert EntryLines(values, order + [k]) == EntryLines(values, order) + [Entry(k, values[k]).Line()];
    assert [HEADER, HINT] + EntryLines(values, order + [k]) == lines + [Entry(k, values[k]).Line()];
  }

  lemma TwoComments(values: Values, kept: nat -> nat)
    ensures Print(values, [], kept) == Kept(HEADER + "\n", kept(0)) + Kept(HINT + "\n", kept(1))
  {
    hide Kept, HEADER, HINT;
    var lines := [HEADER, HINT];
    assert EntryLines(values, []) == [] && lines + [] == lines;
    assert lines[1..] == [HINT] && [HINT][1..] == [];
    assert Printed(lines[1..], kept, 1) == Kept(HINT + "\n", kept(1)) + "";
  }

  ghost predicate Prints(file: string, values: Values, order: seq<string>, kept: nat -> nat) {
    IsOrderOf(order, values.Keys) && file == Print(values, order, kept)
  }

  /** Prints the entries in whatever order the map yields them; nothing that is lost on the way is noticed. */
  method WriteSecretsFile(secrets: Values, kept: nat -> nat) returns (text: string)
    ensures exists order :: Prints(text, secrets, order, kept)
  {
    hide Print, Kept, HEADER, HINT;
    TwoComments(secrets, kept);
    text := Kept(HEADER + "\n", kept(0));
    text := text + Kept(HINT + "\n", kept(1));
    var todo, prints := secrets.Keys, 2;
    ghost var order: seq<string> := [];
    while todo != {}
      invariant todo <= secrets.Keys && IsOrderOf(order, secrets.Keys - todo) && prints == |order| + 2
      invariant text == Print(secrets, order, kept)
    {
      var k :| k in todo;
      OneMorePrint(secrets, order, k, kept);
      text := text + Kept(k + "=" + secrets[k] + "\n", kept(prints));
      order, prints, todo := order + [k], prints + 1, todo - {k};
    }
    assert secrets.Keys - todo == secrets.Keys;
    assert Prints(text, secrets, order, kept);
  }
}
