/**
 * The log of one installation: a buffer with the whole history, and a bounded
 * channel per subscriber that is first filled from the history and then gets
 * every line written. Operations run under the task's mutex; receivers take
 * nothing but the channel, so they drain it at any time, also between two lines
 * of one write.
 */
module LogStream {
  import opened Text

  const CAPACITY: nat := 100

  // ---- lines --------------------------------------------------------------

  function NonEmpty(parts: seq<string>): seq<string> {
    if parts == [] then []
    else if parts[0] == "" then NonEmpty(parts[1..])
    else [parts[0]] + NonEmpty(parts[1..])
  }

  /** The non-empty lines of a text; a last line without a newline counts. */
  function SplitLines(s: string): seq<string> {
    NonEmpty(Split(s, '\n'))
  }

  function Concat(lines: seq<string>): string {
    if lines == [] then "" else lines[0] + Concat(lines[1..])
  }

  function WithoutNewlines(s: string): string {
    if s == "" then "" else (if s[0] == '\n' then "" else [s[0]]) + WithoutNewlines(s[1..])
  }

  predicate IsLine(m: string) { m != "" && '\n' !in m }

  lemma {:induction false} ConcatNonEmpty(parts: seq<string>)
    ensures Concat(NonEmpty(parts)) == Concat(parts)
  {
    if parts != [] {
      var rest := NonEmpty(parts[1..]);
      ConcatNonEmpty(parts[1..]);
      if parts[0] == "" {
        assert parts[0] + Concat(parts[1..]) == Concat(parts[1..]);
      } else {
        assert ([parts[0]] + rest)[1..] == rest;
      }
    }
  }

  lemma {:induction false} ConcatSplit(s: string)
    ensures Concat(Split(s, '\n')) == WithoutNewlines(s)
  {
    if s != "" {
      var rest := Split(s[1..], '\n');
      ConcatSplit(s[1..]);
      var parts := Split(s, '\n');
      if s[0] == '\n' {
        assert parts[1..] == rest;
      } else {
        assert parts[1..] == rest[1..];
        assert [s[0]] + rest[0] + Concat(rest[1..]) == [s[0]] + (rest[0] + Concat(rest[1..]));
      }
    }
  }

  /** Splitting into lines loses nothing but newlines. */
  lemma LinesKeepText(s: string)
    ensures Concat(SplitLines(s)) == WithoutNewlines(s)
  {
    ConcatNonEmpty(Split(s, '\n'));
    ConcatSplit(s);
  }

  lemma {:induction false} NonEmptyAppend(a: seq<string>, b: seq<string>)
    ensures NonEmpty(a + b) == NonEmpty(a) + NonEmpty(b)
  {
    if a == [] {
      assert a + b == b;
    } else {
      NonEmptyAppend(a[1..], b);
      assert (a + b)[1..] == a[1..] + b;
      var rest := NonEmpty(a[1..]) + NonEmpty(b);
      assert NonEmpty(a + b) == if a[0] == "" then rest else [a[0]] + rest;
      assert [a[0]] + rest == [a[0]] + NonEmpty(a[1..]) + NonEmpty(b);
    }
  }

  lemma {:induction false} LinesAreLines(s: string)
    ensures forall m :: m in SplitLines(s) ==> IsLine(m)
  {
    SplitJoin(s, '\n');
    NonEmptyMembers(Split(s, '\n'));
  }

  lemma {:induction false} NonEmptyMembers(parts: seq<string>)
    ensures forall m :: m in NonEmpty(parts) <==> m in parts && m != ""
  {
    if parts != [] {
      NonEmptyMembers(parts[1..]);
    }
  }

  /** A text that ends where a line ends. */
  predicate Terminated(s: string) {
    s == "" || s[|s| - 1] == '\n'
  }

  /** A line ends between the two texts, or one of them is empty. */
  predicate AtBoundary(a: string, b: string) {
    Terminated(a) || b == "" || b[0] == '\n'
  }

  /** Two lists of parts, the last of the one and the first of the other joined. */
  function Meet(x: seq<string>, y: seq<string>): (r: seq<string>)
    requires x != [] && y != []
    ensures r != []
  {
    x[..|x| - 1] + [x[|x| - 1] + y[0]] + y[1..]
  }

  lemma MeetNothing(y: seq<string>)
    requires y != []
    ensures Meet([""], y) == y
  {
    assert "" + y[0] == y[0];
  }

  lemma MeetLonger(w: seq<string>, y: seq<string>)
    requires w != [] && y != []
    ensures Meet([""] + w, y) == [""] + Meet(w, y)
  {
    var x := [""] + w;
    assert x[|x| - 1] == w[|w| - 1] && x[..|x| - 1] == [""] + w[..|w| - 1];
  }

  lemma MeetWider(c: char, w: seq<string>, y: seq<string>)
    requires w != [] && y != []
    ensures Meet([[c] + w[0]] + w[1..], y) == [[c] + Meet(w, y)[0]] + Meet(w, y)[1..]
  {
    var x := [[c] + w[0]] + w[1..];
    if |w| == 1 {
      assert [c] + (w[0] + y[0]) == [c] + w[0] + y[0];
    } else {
      assert x[|x| - 1] == w[|w| - 1] && x[..|x| - 1] == [[c] + w[0]] + w[1..|w| - 1];
    }
  }

  lemma SplitCons(c: char, s: string)
    ensures var parts := Split(s, '\n');
            Split([c] + s, '\n') == if c == '\n' then [""] + parts else [[c] + parts[0]] + parts[1..]
  {
    assert ([c] + s)[1..] == s;
  }

  /** Splitting two texts together joins the last part of the one to the first of the other. */
  lemma {:induction false} SplitAppend(a: string, b: string)
    ensures Split(a + b, '\n') == Meet(Split(a, '\n'), Split(b, '\n'))
  {
    if a == "" {
      assert a + b == b && Split(a, '\n') == [""];
      hide Split, Meet;
      MeetNothing(Split(b, '\n'));
    } else {
      hide Split, Meet;
      SplitAppend(a[1..], b);
      assert a == [a[0]] + a[1..] && a + b == [a[0]] + (a[1..] + b);
      SplitCons(a[0], a[1..]);
      SplitCons(a[0], a[1..] + b);
      MeetLonger(Split(a[1..], '\n'), Split(b, '\n'));
      MeetWider(a[0], Split(a[1..], '\n'), Split(b, '\n'));
    }
  }

  lemma {:induction false} LastPart(a: string)
    ensures Split(a, '\n')[|Split(a, '\n')| - 1] == "" <==> Terminated(a)
  {
    if |a| > 1 {
      LastPart(a[1..]);
    } else if |a| == 1 {
      assert Split(a[1..], '\n') == [""];
    }
  }

  lemma NonEmptyOne(m: string)
    ensures NonEmpty([m]) == if m == "" then [] else [m]
  {
    assert [m][1..] == [];
  }

  /**
   * The lines of two texts together are those of each exactly when a line ends
   * between them; else two of them merge.
   */
  lemma LinesAppend(a: string, b: string)
    ensures AtBoundary(a, b) ==> SplitLines(a + b) == SplitLines(a) + SplitLines(b)
    ensures !AtBoundary(a, b) ==> |SplitLines(a + b)| == |SplitLines(a)| + |SplitLines(b)| - 1
  {
    var x, y := Split(a, '\n'), Split(b, '\n');
    var init, last, first, rest := x[..|x| - 1], x[|x| - 1], y[0], y[1..];
    SplitAppend(a, b);
    LastPart(a);
    assert first == "" <==> b == "" || b[0] == '\n';
    hide Split, NonEmpty;
    assert x == init + [last] && y == [first] + rest;
    PartsMeet(init, last, first, rest);
  }

  lemma PartsMeet(init: seq<string>, last: string, first: string, rest: seq<string>)
    ensures var joined := NonEmpty(init + [last + first] + rest);
            var apart := NonEmpty(init + [last]) + NonEmpty([first] + rest);
            if last == "" || first == "" then joined == apart else |joined| == |apart| - 1
  {
    NonEmptyAppend(init, [last]);
    NonEmptyAppend([first], rest);
    NonEmptyAppend(init + [last + first], rest);
    NonEmptyAppend(init, [last + first]);
    NonEmptyOne(last);
    NonEmptyOne(first);
    NonEmptyOne(last + first);
    hide NonEmpty;
    assert last == "" ==> last + first == first;
    assert first == "" ==> last + first == last;
    var p, q := NonEmpty(init), NonEmpty(rest);
    assert p + NonEmpty([last]) + (NonEmpty([first]) + q) == p + (NonEmpty([last]) + NonEmpty([first])) + q;
  }

  lemma LinesOfNothing()
    ensures SplitLines("") == []
  {
    assert [""][1..] == [];
  }

  lemma {:induction false} ConcatAppend(a: seq<string>, b: seq<string>)
    ensures Concat(a + b) == Concat(a) + Concat(b)
  {
    if a == [] {
      assert a + b == b;
    } else {
      ConcatAppend(a[1..], b);
      assert (a + b)[1..] == a[1..] + b && (a + b)[0] == a[0];
      var rest := Concat(a[1..]);
      assert a[0] + (rest + Concat(b)) == a[0] + rest + Concat(b);
    }
  }

  lemma {:induction false} WithoutAppend(a: string, b: string)
    ensures WithoutNewlines(a + b) == WithoutNewlines(a) + WithoutNewlines(b)
  {
    if a == "" {
      assert a + b == b;
    } else {
      WithoutAppend(a[1..], b);
      assert (a + b)[1..] == a[1..] + b && (a + b)[0] == a[0];
      var first: string := if a[0] == '\n' then "" else [a[0]];
      var rest, tail := WithoutNewlines(a[1..]), WithoutNewlines(b);
      assert first + (rest + tail) == first + rest + tail;
    }
  }

  // ---- a channel ----------------------------------------------------------

  /** How a channel came to be closed, if it was: by its cleanup, by Finish, or at birth after Finish. */
  datatype Fate = Open | CleanedUp | Finished | Late

  /**
   * `sent` is everything ever put in the channel and `received` how much of it
   * was taken out. The rest is history: the lines in the buffer at attach time,
   * all lines the task tried to send, replay first, and the log at closing time.
   */
  datatype Chan = Chan(sent: seq<string>, received: nat, fate: Fate, replay: seq<string>, offered: seq<string>,
                       until: string) {
    predicate Closed() { !fate.Open? }

    predicate Full() { |sent| >= received + CAPACITY }

    /** A non-blocking send; sending on a closed channel would panic. */
    function Offer(line: string): Chan
      requires !Closed()
    {
      if Full() then this.(offered := offered + [line])
      else this.(sent := sent + [line], offered := offered + [line])
    }

    /** Closing a closed channel would panic. */
    function Close(how: Fate, log: string): Chan
      requires !Closed() && !how.Open?
    {
      this.(fate := how, until := log)
    }
  }

  ghost predicate Subsequence(a: seq<string>, b: seq<string>)
    decreases |b|
  {
    a == [] || (b != [] && (Subsequence(a, b[..|b| - 1])
                            || (a[|a| - 1] == b[|b| - 1] && Subsequence(a[..|a| - 1], b[..|b| - 1]))))
  }

  lemma SubsequenceGrows(a: seq<string>, b: seq<string>, x: string)
    requires Subsequence(a, b)
    ensures Subsequence(a, b + [x]) && Subsequence(a + [x], b + [x])
  {
    assert (b + [x])[..|b|] == b && (a + [x])[..|a|] == a;
  }

  /** The lines of a subsequence stand in the other sequence, in the same order. */
  ghost predicate Selects(at: seq<nat>, a: seq<string>, b: seq<string>) {
    && |at| == |a| && (forall i :: 0 <= i < |at| ==> at[i] < |b| && b[at[i]] == a[i])
    && forall i, j :: 0 <= i < j < |at| ==> at[i] < at[j]
  }

  lemma {:induction false} SubsequenceSelects(a: seq<string>, b: seq<string>) returns (at: seq<nat>)
    requires Subsequence(a, b)
    ensures Selects(at, a, b)
    decreases |b|
  {
    if a == [] {
      at := [];
    } else {
      var init := b[..|b| - 1];
      if Subsequence(a, init) {
        at := SubsequenceSelects(a, init);
      } else {
        var first := SubsequenceSelects(a[..|a| - 1], init);
        at := first + [|b| - 1];
      }
    }
  }

  function Min(a: nat, b: nat): nat { if a < b then a else b }

  ghost predicate ChanInv(c: Chan) {
    && c.received <= |c.sent| <= c.received + CAPACITY
    && (forall m :: m in c.sent ==> IsLine(m))
    && Subsequence(c.sent, c.offered)
    && c.replay <= c.offered
    && Min(CAPACITY, |c.replay|) <= |c.sent|
    && c.sent[..Min(CAPACITY, |c.replay|)] == c.replay[..Min(CAPACITY, |c.replay|)]
    && Dropless(c)
  }

  /** What was sent is all that was offered, or it is shorter, in lines and in characters. */
  ghost predicate Dropless(c: Chan) {
    c.sent == c.offered || (|c.sent| < |c.offered| && |Concat(c.sent)| < |Concat(c.offered)|)
  }

  lemma OfferKeepsInv(c: Chan, line: string)
    requires !c.Closed() && ChanInv(c) && IsLine(line)
    ensures ChanInv(c.Offer(line))
  {
    SubsequenceGrows(c.sent, c.offered, line);
    ConcatAppend(c.sent, [line]);
    ConcatAppend(c.offered, [line]);
    assert Concat([line]) == line by { assert [line][1..] == [] && line + "" == line; }
  }

  /** A new channel filled from the history, up to its capacity. */
  function Replayed(log: string): Chan {
    var lines := SplitLines(log);
    Chan(lines[..Min(CAPACITY, |lines|)], 0, Open, lines, lines, "")
  }

  lemma {:induction false} PrefixIsSubsequence(a: seq<string>, n: nat)
    requires n <= |a|
    ensures Subsequence(a[..n], a)
  {
    if a != [] {
      var init := a[..|a| - 1];
      if n == |a| {
        PrefixIsSubsequence(init, n - 1);
        assert a[..n][..n - 1] == init[..n - 1];
      } else {
        PrefixIsSubsequence(init, n);
        assert init[..n] == a[..n];
      }
    }
  }

  lemma ReplayedInv(log: string)
    ensures ChanInv(Replayed(log)) && ChanInv(Replayed(log).Close(Late, log))
  {
    LinesAreLines(log);
    var lines := SplitLines(log);
    hide SplitLines, Concat;
    var n := Min(CAPACITY, |lines|);
    PrefixIsSubsequence(lines, n);
    assert lines == lines[..n] + lines[n..];
    ConcatAppend(lines[..n], lines[n..]);
    if n < |lines| {
      LineHasText(lines[n..]);
    }
  }

  lemma LineHasText(lines: seq<string>)
    requires lines != [] && IsLine(lines[0])
    ensures |Concat(lines)| > 0
  {
  }

  // ---- the task -----------------------------------------------------------

  /**
   * Channels are named by their position in `chans`, which lists every one ever
   * handed out. `pending` are the lines of the current write that are still to
   * be sent: while there are any, the mutex is held. `atFinish` is history.
   */
  datatype Task = Task(log: string, pending: seq<string>, subscribers: seq<nat>, isFinished: bool, chans: seq<Chan>,
                       atFinish: string) {
    ghost predicate Inv() {
      && (forall i :: 0 <= i < |chans| ==> (chans[i].Closed() <==> i !in subscribers))
      && (forall i :: i in subscribers ==> i < |chans|)
      && (forall j, k :: 0 <= j < k < |subscribers| ==> subscribers[j] != subscribers[k])
      && (isFinished ==> subscribers == [])
      && (forall i :: 0 <= i < |chans| && (chans[i].fate.Finished? || chans[i].fate.Late?) ==> isFinished)
      && (forall i :: 0 <= i < |chans| && chans[i].fate.Finished? ==> chans[i].until == atFinish)
      && (forall i :: 0 <= i < |chans| ==> ChanInv(chans[i]))
      && (forall m :: m in pending ==> IsLine(m))
    }

    /** The start of a write: the bytes go to the log, their lines are to be sent. */
    function Write(p: string): Task {
      this.(log := log + p, pending := SplitLines(p))
    }

    /** The next line goes to every subscriber. */
    function Send(): Task
      requires Inv() && pending != []
    {
      this.(pending := pending[1..], chans := Broadcast(chans, subscribers, pending[0]))
    }

    function Subscribe(): Task {
      if isFinished then this.(chans := chans + [Replayed(log).Close(Late, log)])
      else this.(chans := chans + [Replayed(log)], subscribers := subscribers + [|chans|])
    }

    /** The cleanup function of channel `id`; it does nothing the second time, or after Finish. */
    function Cleanup(id: nat): Task
      requires Inv()
    {
      if id !in subscribers then this
      else this.(subscribers := Without(subscribers, id), chans := chans[id := chans[id].Close(CleanedUp, log)])
    }

    function Finish(): Task
      requires Inv()
    {
      this.(subscribers := [], isFinished := true,
            chans := seq(|chans|, i requires 0 <= i < |chans| =>
                       if i in subscribers then chans[i].Close(Finished, log) else chans[i]),
            atFinish := if isFinished then atFinish else log)
    }

    /** A receiver takes a message, if there is one. */
    function Receive(id: nat): Task {
      if id < |chans| && chans[id].received < |chans[id].sent|
      then this.(chans := chans[id := chans[id].(received := chans[id].received + 1)])
      else this
    }
  }

  /** One line to every subscriber. */
  function Broadcast(chans: seq<Chan>, subscribers: seq<nat>, line: string): (r: seq<Chan>)
    requires forall i :: i in subscribers ==> i < |chans| && !chans[i].Closed()
    ensures |r| == |chans|
  {
    seq(|chans|, i requires 0 <= i < |chans| => if i in subscribers then chans[i].Offer(line) else chans[i])
  }

  function Without(s: seq<nat>, x: nat): (r: seq<nat>)
    ensures x !in s ==> r == s
  {
    if s == [] then [] else if s[0] == x then s[1..] else [s[0]] + Without(s[1..], x)
  }

  lemma {:induction false} WithoutMembers(s: seq<nat>, x: nat)
    requires forall j, k :: 0 <= j < k < |s| ==> s[j] != s[k]
    ensures forall y :: y in Without(s, x) <==> y in s && y != x
    ensures forall j, k :: 0 <= j < k < |Without(s, x)| ==> Without(s, x)[j] != Without(s, x)[k]
  {
    if s != [] {
      WithoutMembers(s[1..], x);
      var w := Without(s, x);
      assert forall y :: y in s[1..] ==> y != s[0];
      if s[0] != x {
        assert w == [s[0]] + Without(s[1..], x);
        forall j, k | 0 <= j < k < |w| ensures w[j] != w[k] {
          assert w[k] in Without(s[1..], x);
        }
      }
    }
  }

  datatype Event = Write(p: string) | Send | Subscribe | Cleanup(id: nat) | Finish | Receive(id: nat)

  /** Between the lines of a write only a receiver can do anything: what needs the mutex does not happen. */
  function Step(t: Task, e: Event): Task
    requires t.Inv()
  {
    if e.Receive? then t.Receive(e.id)
    else if e.Send? then (if t.pending != [] then t.Send() else t)
    else if t.pending != [] then t
    else match e
      case Write(p) => t.Write(p)
      case Subscribe => t.Subscribe()
      case Cleanup(id) => t.Cleanup(id)
      case Finish => t.Finish()
      case _ => t
  }

  const NEW_TASK: Task := Task("", [], [], false, [], "")

  /**
   * Any sequence of steps. That a state satisfying the invariant is reached is
   * what lets every send and every close in it go ahead: none of them meets a
   * closed channel.
   */
  function RunFrom(t: Task, es: seq<Event>): (u: Task)
    requires t.Inv()
    ensures u.Inv()
  {
    if es == [] then t
    else
      var before := RunFrom(t, es[..|es| - 1]);
      StepKeepsInv(before, es[|es| - 1]);
      Step(before, es[|es| - 1])
  }

  function Run(es: seq<Event>): (t: Task)
    ensures t.Inv()
  {
    RunFrom(NEW_TASK, es)
  }

  lemma RunStep(es: seq<Event>, n: nat)
    requires n < |es|
    ensures Run(es[..n + 1]) == Step(Run(es[..n]), es[n])
  {
    assert es[..n + 1][..n] == es[..n];
  }

  lemma SubscribeKeepsInv(t: Task)
    requires t.Inv()
    ensures t.Subscribe().Inv()
  {
    ReplayedInv(t.log);
    hide ChanInv, SplitLines;
    var u := t.Subscribe();
    forall j, k | 0 <= j < k < |u.subscribers| ensures u.subscribers[j] != u.subscribers[k] {
      assert u.subscribers[j] in t.subscribers;
      assert k < |t.subscribers| ==> u.subscribers[k] == t.subscribers[k];
    }
    forall i | 0 <= i < |u.chans| ensures ChanInv(u.chans[i]) && (u.chans[i].Closed() <==> i !in u.subscribers) {
      if i < |t.chans| {
        assert u.chans[i] == t.chans[i];
      }
    }
  }

  lemma CleanupKeepsInv(t: Task, id: nat)
    requires t.Inv()
    ensures t.Cleanup(id).Inv()
  {
    WithoutMembers(t.subscribers, id);
    hide Concat, Subsequence;
  }

  lemma SendKeepsInv(t: Task)
    requires t.Inv() && t.pending != []
    ensures t.Send().Inv()
  {
    var u := t.Send();
    forall i | 0 <= i < |u.chans| ensures ChanInv(u.chans[i]) && u.chans[i].Closed() == t.chans[i].Closed() {
      if i in t.subscribers {
        OfferKeepsInv(t.chans[i], t.pending[0]);
      }
    }
    hide ChanInv;
  }

  lemma FinishKeepsInv(t: Task)
    requires t.Inv()
    ensures t.Finish().Inv()
  {
    hide Concat, Subsequence;
  }

  lemma StepKeepsInv(t: Task, e: Event)
    requires t.Inv()
    ensures Step(t, e).Inv()
  {
    match e
    case Write(p) => LinesAreLines(p);
    case Send =>
      if t.pending != [] {
        SendKeepsInv(t);
      }
    case Subscribe => SubscribeKeepsInv(t);
    case Cleanup(id) => CleanupKeepsInv(t, id);
    case Finish => FinishKeepsInv(t);
    case Receive(_) =>
  }

  // ---- main results -------------------------------------------------------

  /**
   * In every interleaving, receivers acting also between the lines of a write:
   * each message is one non-empty line, the channel holds at most its capacity,
   * what was sent is a subsequence of what was offered and starts with the first
   * lines, at most 100, of the history at attach time; and once Finish has run,
   * every channel ever handed out is closed.
   */
  lemma Delivery(es: seq<Event>, i: nat)
    requires i < |Run(es).chans|
    ensures var t, c := Run(es), Run(es).chans[i];
            && (forall m :: m in c.sent ==> m != "" && '\n' !in m)
            && |c.sent| - c.received <= CAPACITY
            && (exists at :: Selects(at, c.sent, c.offered))
            && Min(CAPACITY, |c.replay|) <= |c.sent|
            && c.sent[..Min(CAPACITY, |c.replay|)] == c.replay[..Min(CAPACITY, |c.replay|)]
            && (t.isFinished ==> c.Closed())
  {
    hide Run, Subsequence;
    assert ChanInv(Run(es).chans[i]);
    var at := SubsequenceSelects(Run(es).chans[i].sent, Run(es).chans[i].offered);
  }

  /** The step sends a line to channel i. */
  ghost predicate SendsTo(t: Task, e: Event, i: nat) {
    e.Send? && t.pending != [] && i in t.subscribers
  }

  /** The step sends a line to channel i while that is full. */
  ghost predicate Drops(t: Task, e: Event, i: nat) {
    SendsTo(t, e, i) && i < |t.chans| && t.chans[i].Full()
  }

  /** Channel i had room at each moment a line was sent to it. */
  ghost predicate RoomAtSends(es: seq<Event>, i: nat) {
    forall n :: 0 <= n < |es| ==> !Drops(Run(es[..n]), es[n], i)
  }

  /** And the history fitted into it. */
  ghost predicate RoomForAll(es: seq<Event>, i: nat)
    requires i < |Run(es).chans|
  {
    |Run(es).chans[i].replay| <= CAPACITY && RoomAtSends(es, i)
  }

  lemma StepDrops(t: Task, e: Event, i: nat)
    requires t.Inv() && i < |Step(t, e).chans|
    ensures var d := Step(t, e).chans[i];
            if i < |t.chans| then
              && d.replay == t.chans[i].replay
              && (d.sent == d.offered <==> t.chans[i].sent == t.chans[i].offered && !Drops(t, e, i))
            else (d.sent == d.offered <==> |d.replay| <= CAPACITY) && !Drops(t, e, i)
  {
    hide SplitLines, Concat, Subsequence;
    if i < |t.chans| {
      var c := t.chans[i];
      assert ChanInv(c);
      assert c.sent != c.offered ==> |c.sent| < |c.offered|;
    }
  }

  lemma RoomLast(es: seq<Event>, i: nat)
    requires es != []
    ensures var init := es[..|es| - 1];
            RoomAtSends(es, i) <==> RoomAtSends(init, i) && !Drops(Run(init), es[|es| - 1], i)
  {
    hide Run, Drops;
    var init := es[..|es| - 1];
    assert forall n :: 0 <= n < |init| ==> init[..n] == es[..n] && init[n] == es[n];
    assert es[..|init|] == init;
  }

  lemma RunLast(es: seq<Event>)
    requires es != []
    ensures Run(es) == Step(Run(es[..|es| - 1]), es[|es| - 1])
  {
  }

  /** A line is dropped only by a channel that is full at that moment, and then it is lost for good. */
  lemma {:induction false} NothingDroppedIff(es: seq<Event>, i: nat)
    requires i < |Run(es).chans|
    ensures Run(es).chans[i].sent == Run(es).chans[i].offered <==> RoomForAll(es, i)
  {
    if es != [] {
      hide Run, Step, Drops, RoomAtSends;
      var init, e := es[..|es| - 1], es[|es| - 1];
      RunLast(es);
      StepDrops(Run(init), e, i);
      RoomLast(es, i);
      if i < |Run(init).chans| {
        NothingDroppedIff(init, i);
      } else {
        NotYetThere(es, i);
      }
    }
  }

  /** Channels are never taken away. */
  lemma NotYetThere(es: seq<Event>, i: nat)
    requires es != [] && i >= |Run(es[..|es| - 1]).chans|
    ensures RoomAtSends(es, i)
  {
    forall n | 0 <= n < |es| ensures !Drops(Run(es[..n]), es[n], i) {
      ChansGrow(es[..|es| - 1], n);
      assert es[..|es| - 1][..n] == es[..n];
    }
  }

  lemma {:induction false} ChansGrow(es: seq<Event>, n: nat)
    requires n <= |es|
    ensures |Run(es[..n]).chans| <= |Run(es).chans|
  {
    if n == |es| {
      assert es[..n] == es;
    } else {
      var init := es[..|es| - 1];
      assert init[..n] == es[..n];
      ChansGrow(init, n);
      RunLast(es);
      hide Run;
    }
  }

  // ---- what each operation does, for good ---------------------------------

  /** The n-th step is not held up by a write under way. */
  ghost predicate TakesPlace(es: seq<Event>, n: nat) {
    n < |es| && Run(es[..n]).pending == []
  }

  /** What has been closed stays as it is; what is there stays there; the log only grows. */
  lemma StepStays(t: Task, e: Event, i: nat)
    requires t.Inv()
    ensures var u := Step(t, e);
            && (t.isFinished ==> u.isFinished && u.atFinish == t.atFinish)
            && t.log <= u.log && |t.chans| <= |u.chans|
            && (i < |t.chans| ==> u.chans[i].replay == t.chans[i].replay)
            && (i < |t.chans| && t.chans[i].Closed() ==>
                  u.chans[i] == t.chans[i].(received := u.chans[i].received))
  {
    hide SplitLines, ChanInv;
    if e.Cleanup? && t.pending == [] {
      assert i < |t.chans| && t.chans[i].Closed() ==> i !in t.subscribers;
    }
  }

  lemma {:induction false} RunStays(es: seq<Event>, n: nat, i: nat)
    requires n <= |es|
    ensures var t, u := Run(es[..n]), Run(es);
            && (t.isFinished ==> u.isFinished && u.atFinish == t.atFinish)
            && t.log <= u.log && |t.chans| <= |u.chans|
            && (i < |t.chans| ==> u.chans[i].replay == t.chans[i].replay)
            && (i < |t.chans| && t.chans[i].Closed() ==>
                  u.chans[i] == t.chans[i].(received := u.chans[i].received))
  {
    if n == |es| {
      assert es[..n] == es;
    } else {
      var init := es[..|es| - 1];
      assert init[..n] == es[..n];
      RunStays(init, n, i);
      RunLast(es);
      hide Run, Step;
      StepStays(Run(init), es[|es| - 1], i);
    }
  }

  /**
   * Once Finish has run, the task is finished and every channel is closed, those
   * handed out later included. The channels attached at the first Finish are
   * closed by it, with the log as it was then.
   */
  lemma FinishClosesAll(es: seq<Event>, n: nat, i: nat)
    requires TakesPlace(es, n) && es[n].Finish?
    ensures var t, u := Run(es[..n]), Run(es);
            && u.isFinished && |t.chans| <= |u.chans| && (i < |u.chans| ==> u.chans[i].Closed())
            && (!t.isFinished ==> u.atFinish == t.log)
            && (i < |t.chans| && !t.chans[i].Closed() ==> u.chans[i].fate.Finished? && u.chans[i].until == t.log)
  {
    RunStep(es, n);
    RunStays(es, n + 1, i);
    hide Run, ChanInv;
    var u := Run(es);
    assert u.Inv();
  }

  /** The task is finished only by a Finish. */
  lemma {:induction false} FinishedByFinish(es: seq<Event>) returns (n: nat)
    requires Run(es).isFinished
    ensures TakesPlace(es, n) && es[n].Finish?
  {
    var init, e := es[..|es| - 1], es[|es| - 1];
    RunLast(es);
    if Run(init).isFinished {
      n := FinishedByFinish(init);
      assert init[..n] == es[..n];
    } else {
      n := |init|;
      assert es[..n] == init;
    }
  }

  /** After its cleanup a channel is closed; if it was attached, that is what closed it. */
  lemma CleanupCloses(es: seq<Event>, n: nat, i: nat)
    requires TakesPlace(es, n) && es[n] == Event.Cleanup(i) && i < |Run(es[..n]).chans|
    ensures var t, u := Run(es[..n]), Run(es);
            && i < |u.chans| && u.chans[i].Closed()
            && (!t.chans[i].Closed() ==> u.chans[i].fate.CleanedUp? && u.chans[i].until == t.log)
  {
    RunStep(es, n);
    RunStays(es, n + 1, i);
    hide Run, ChanInv;
  }

  /**
   * A channel that is handed out has the history of that moment to replay, and is
   * attached unless the task is finished.
   */
  lemma SubscribeAttaches(es: seq<Event>, n: nat)
    requires TakesPlace(es, n) && es[n].Subscribe?
    ensures var t, u, v := Run(es[..n]), Run(es[..n + 1]), Run(es);
            var i := |t.chans|;
            && |u.chans| == i + 1 && i < |v.chans| && v.chans[i].replay == SplitLines(t.log)
            && (u.chans[i].Closed() <==> t.isFinished) && (i in u.subscribers <==> !t.isFinished)
  {
    RunStep(es, n);
    assert es[..n + 1][..n] == es[..n];
    SubscribeKeepsInv(Run(es[..n]));
    RunStays(es, n + 1, |Run(es[..n]).chans|);
    hide Run, SplitLines, ChanInv;
  }

  /** The texts of the writes that took place, one after the other. */
  function Written(es: seq<Event>): string {
    if es == [] then ""
    else
      var init, e := es[..|es| - 1], es[|es| - 1];
      Written(init) + if e.Write? && Run(init).pending == [] then e.p else ""
  }

  /** The log is what was written. */
  lemma {:induction false} LogIsWritten(es: seq<Event>)
    ensures Run(es).log == Written(es)
  {
    if es != [] {
      LogIsWritten(es[..|es| - 1]);
      RunLast(es);
      hide Run, SplitLines, ChanInv;
    }
  }

  /** As long as a line is pending, a send takes it and goes on to the next: a write gets done. */
  lemma {:induction false} WritesGetDone(t: Task, n: nat)
    requires t.Inv() && n == |t.pending|
    ensures RunFrom(t, seq(n, _ => Event.Send)).pending == []
    decreases n
  {
    if n > 0 {
      SendIsStep(t);
      StepKeepsInv(t, Event.Send);
      var u := Step(t, Event.Send);
      WritesGetDone(u, n - 1);
      RunFromOne(t, Event.Send);
      RunFromAppend(t, [Event.Send], seq(n - 1, _ => Event.Send));
      assert seq(n, _ => Event.Send) == [Event.Send] + seq(n - 1, _ => Event.Send);
    }
  }

  /** A receiver that finds a message takes the next one that was sent. */
  lemma ReceiveTakesNext(es: seq<Event>, n: nat, i: nat)
    requires n < |es| && es[n] == Event.Receive(i) && i < |Run(es[..n]).chans|
    ensures var c, u := Run(es[..n]).chans[i], Run(es[..n + 1]);
            && i < |u.chans| && u.chans[i].sent == c.sent
            && u.chans[i].received == if c.received < |c.sent| then c.received + 1 else c.received
  {
    RunStep(es, n);
    hide Run, ChanInv;
  }

  // ---- what a channel is offered ------------------------------------------

  /** The step writes, while channel i is attached, across a line of the log. */
  ghost predicate Breaks(t: Task, e: Event, i: nat) {
    e.Write? && t.pending == [] && i in t.subscribers && !AtBoundary(t.log, e.p)
  }

  /** Every write since channel i was attached met the end of a line; a writer can see beforehand whether it will. */
  ghost predicate MetLines(es: seq<Event>, i: nat) {
    forall n :: 0 <= n < |es| ==> !Breaks(Run(es[..n]), es[n], i)
  }

  /** All that channel i has been offered or is about to be. */
  function Heard(t: Task, c: Chan): seq<string> {
    c.offered + if c.fate.Open? then t.pending else []
  }

  /** The log so far, or up to the closing of the channel. */
  function LogOf(t: Task, c: Chan): string {
    if c.fate.Open? then t.log else c.until
  }

  ghost predicate Hears(t: Task, c: Chan, met: bool) {
    && Concat(Heard(t, c)) == WithoutNewlines(LogOf(t, c))
    && if met then Heard(t, c) == SplitLines(LogOf(t, c)) else |Heard(t, c)| > |SplitLines(LogOf(t, c))|
  }

  lemma WriteHears(t: Task, p: string, i: nat, met: bool)
    requires t.Inv() && t.pending == [] && i < |t.chans| && Hears(t, t.chans[i], met)
    ensures Hears(t.Write(p), t.chans[i], met && !Breaks(t, Event.Write(p), i))
  {
    var c := t.chans[i];
    if c.fate.Open? {
      LinesAppend(t.log, p);
      ConcatAppend(c.offered, SplitLines(p));
      WithoutAppend(t.log, p);
      LinesKeepText(p);
      hide SplitLines, Concat, WithoutNewlines, AtBoundary;
      assert c.offered + [] == c.offered;
    }
  }

  lemma SendHears(t: Task, i: nat, met: bool)
    requires t.Inv() && t.pending != [] && i < |t.chans| && Hears(t, t.chans[i], met)
    ensures Hears(t.Send(), t.Send().chans[i], met)
  {
    hide SplitLines, Concat, WithoutNewlines, ChanInv;
    var c, d := t.chans[i], t.Send().chans[i];
    if c.fate.Open? {
      assert d.offered == c.offered + [t.pending[0]];
      assert c.offered + [t.pending[0]] + t.pending[1..] == c.offered + t.pending;
    }
  }

  lemma SubscribeHears(t: Task)
    requires t.Inv() && t.pending == []
    ensures Hears(t.Subscribe(), t.Subscribe().chans[|t.chans|], true)
  {
    LinesKeepText(t.log);
    hide SplitLines, Concat, WithoutNewlines;
    assert SplitLines(t.log) + [] == SplitLines(t.log);
  }

  /** Detaching a channel between writes fixes what it has heard. */
  lemma StepHears(t: Task, e: Event, i: nat, met: bool)
    requires t.Inv() && i < |Step(t, e).chans|
    requires if i < |t.chans| then Hears(t, t.chans[i], met) else met
    ensures Hears(Step(t, e), Step(t, e).chans[i], met && !Breaks(t, e, i))
  {
    if e.Write? && t.pending == [] {
      WriteHears(t, e.p, i, met);
    } else if e.Send? && t.pending != [] {
      SendHears(t, i, met);
    } else if e.Subscribe? && t.pending == [] {
      SubscribeHears(t);
    }
    hide SplitLines, Concat, WithoutNewlines, ChanInv, AtBoundary;
  }

  lemma {:induction false} RunHears(es: seq<Event>, i: nat)
    requires i < |Run(es).chans|
    ensures Hears(Run(es), Run(es).chans[i], MetLines(es, i))
  {
    if es != [] {
      var init, e := es[..|es| - 1], es[|es| - 1];
      hide Run, Step, Hears, Breaks, MetLines;
      RunLast(es);
      MetLinesLast(es, i);
      if i < |Run(init).chans| {
        RunHears(init, i);
        StepHears(Run(init), e, i, MetLines(init, i));
      } else {
        NotYetBroken(es, i);
        StepHears(Run(init), e, i, true);
      }
    }
  }

  lemma MetLinesLast(es: seq<Event>, i: nat)
    requires es != []
    ensures var init := es[..|es| - 1];
            MetLines(es, i) <==> MetLines(init, i) && !Breaks(Run(init), es[|es| - 1], i)
  {
    hide Run, Breaks;
    var init := es[..|es| - 1];
    assert forall n :: 0 <= n < |init| ==> init[..n] == es[..n] && init[n] == es[n];
    assert es[..|init|] == init;
  }

  lemma NotYetBroken(es: seq<Event>, i: nat)
    requires es != [] && i >= |Run(es[..|es| - 1]).chans|
    ensures MetLines(es, i)
  {
    forall n | 0 <= n < |es| ensures !Breaks(Run(es[..n]), es[n], i) {
      ChansGrow(es[..|es| - 1], n);
      assert es[..|es| - 1][..n] == es[..n];
    }
  }

  /**
   * What an attached channel has been offered, with the lines of a write still
   * under way, is the lines of the log (of a closed one: the log as it was then)
   * if and only if every write since it attached met the end of a line.
   */
  lemma OffersAreLinesIff(es: seq<Event>, i: nat)
    requires i < |Run(es).chans|
    ensures var t, c := Run(es), Run(es).chans[i];
            Heard(t, c) == SplitLines(LogOf(t, c)) <==> MetLines(es, i)
  {
    hide Run, SplitLines, Concat, WithoutNewlines, LogOf, Heard, MetLines;
    RunHears(es, i);
  }

  /**
   * Between writes, and for good once it is closed, a channel was sent exactly
   * the lines of the log if and only if it had room for each and every write met
   * the end of a line.
   */
  lemma GotAllLinesIff(es: seq<Event>, i: nat)
    requires i < |Run(es).chans| && (Run(es).chans[i].Closed() || Run(es).pending == [])
    ensures var t, c := Run(es), Run(es).chans[i];
            c.sent == SplitLines(LogOf(t, c)) <==> RoomForAll(es, i) && MetLines(es, i)
  {
    NothingDroppedIff(es, i);
    OffersAreLinesIff(es, i);
    RunHears(es, i);
    hide Run, SplitLines, Concat, WithoutNewlines, MetLines, RoomForAll, Subsequence;
    var t, c := Run(es), Run(es).chans[i];
    assert Heard(t, c) == c.offered;
    LinesKeepText(LogOf(t, c));
    assert ChanInv(c);
  }

  /**
   * So two subscribers that stayed until Finish and lost nothing got the same
   * lines, those of the log at Finish, however early or late they attached.
   */
  lemma SameLinesForAll(es: seq<Event>, i: nat, j: nat)
    requires i < |Run(es).chans| && j < |Run(es).chans|
    requires Run(es).chans[i].fate.Finished? && Run(es).chans[j].fate.Finished?
    requires RoomForAll(es, i) && MetLines(es, i) && RoomForAll(es, j) && MetLines(es, j)
    ensures Run(es).chans[i].sent == Run(es).chans[j].sent == SplitLines(Run(es).atFinish)
  {
    GotAllLinesIff(es, i);
    GotAllLinesIff(es, j);
    hide Run, SplitLines, ChanInv, RoomForAll, MetLines;
    assert Run(es).Inv();
  }

  /** Every write is a number of whole lines. */
  ghost predicate WholeLines(es: seq<Event>) {
    forall i :: 0 <= i < |es| && es[i].Write? ==> Terminated(es[i].p)
  }

  lemma StepKeepsTerminated(t: Task, e: Event)
    requires t.Inv() && Terminated(t.log) && (e.Write? ==> Terminated(e.p))
    ensures Terminated(Step(t, e).log)
  {
    hide ChanInv, SplitLines;
    assert e.Write? ==> Terminated(t.log + e.p);
  }

  lemma {:induction false} LogTerminated(es: seq<Event>, n: nat)
    requires WholeLines(es) && n <= |es|
    ensures Terminated(Run(es[..n]).log)
  {
    hide Step, Terminated, ChanInv;
    if n > 0 {
      LogTerminated(es, n - 1);
      RunStep(es, n - 1);
      hide Run;
      StepKeepsTerminated(Run(es[..n - 1]), es[n - 1]);
    } else {
      assert es[..0] == [];
      assert Terminated("") by { LastPart(""); }
    }
  }

  /** A writer that writes whole lines always meets the end of one. */
  lemma WholeLinesMeet(es: seq<Event>, i: nat)
    requires WholeLines(es)
    ensures MetLines(es, i)
  {
    forall n | 0 <= n < |es| ensures !Breaks(Run(es[..n]), es[n], i) {
      LogTerminated(es, n);
    }
  }

  lemma OneLine(s: string)
    requires IsLine(s)
    ensures SplitLines(s) == [s]
  {
    SplitOne(s, '\n');
    assert [s][1..] == [] && NonEmpty([]) == [];
  }

  lemma RunOneMore(es: seq<Event>, e: Event)
    ensures Run(es + [e]) == Step(Run(es), e)
  {
    assert (es + [e])[..|es|] == es;
  }

  /** A task with one attached channel that was sent these lines. */
  ghost predicate OneReader(t: Task, log: string, sent: seq<string>) {
    t.log == log && t.pending == [] && t.subscribers == [0] && !t.isFinished && |t.chans| == 1
        && t.chans[0].sent == sent
  }

  lemma FirstReader()
    ensures OneReader(Run([Subscribe]), "", [])
  {
    LinesOfNothing();
    RunOneMore([], Subscribe);
    assert [] + [Subscribe] == [Subscribe];
    hide SplitLines;
  }

  /** One line, written and sent. */
  lemma OneWrite(es: seq<Event>, log: string, sent: seq<string>, p: string)
    requires OneReader(Run(es), log, sent) && |sent| < CAPACITY && IsLine(p)
    ensures OneReader(Run(es + [Write(p)] + [Send]), log + p, sent + [p])
  {
    OneLine(p);
    RunOneMore(es, Write(p));
    RunOneMore(es + [Write(p)], Send);
    hide Run, SplitLines;
    var t := Run(es);
    assert Step(t, Event.Write(p)) == t.Write(p);
  }

  lemma SecondReader(es: seq<Event>, log: string, sent: seq<string>)
    requires OneReader(Run(es), log, sent) && IsLine(log)
    ensures var t := Run(es + [Subscribe]); |t.chans| == 2 && t.chans[0].sent == sent && t.chans[1].sent == [log]
  {
    OneLine(log);
    RunOneMore(es, Subscribe);
    hide Run, SplitLines;
    assert [log][..1] == [log];
  }

  lemma BothLines(a: string, b: string)
    requires IsLine(a) && IsLine(b)
    ensures IsLine(a + b)
  {
  }

  /**
   * What meeting line ends is for: a line written in two parts is two messages to an
   * early subscriber, one to a late one.
   */
  lemma SplitWritesDiffer(a: string, b: string)
    requires IsLine(a) && IsLine(b)
    ensures var t := Run([Subscribe] + [Write(a)] + [Send] + [Write(b)] + [Send] + [Subscribe]);
            |t.chans| == 2 && t.chans[0].sent == [a, b] && t.chans[1].sent == [a + b]
  {
    hide Run, Step, IsLine, SplitLines;
    assert IsLine(a + b) by { BothLines(a, b); }
    FirstReader();
    OneWrite([Subscribe], "", [], a);
    assert "" + a == a && [] + [a] == [a] && [a] + [b] == [a, b];
    OneWrite([Subscribe] + [Write(a)] + [Send], a, [a], b);
    SecondReader([Subscribe] + [Write(a)] + [Send] + [Write(b)] + [Send], a + b, [a, b]);
  }

  // ---- the object ---------------------------------------------------------

  method SplitLinesLoop(s: string) returns (out: seq<string>)
    ensures out == SplitLines(s)
  {
    out := [];
    if s == "" {
      return;
    }
    var raw := Split(s, '\n');
    for i := 0 to |raw|
      invariant out == NonEmpty(raw[..i])
    {
      assert raw[..i + 1] == raw[..i] + [raw[i]];
      NonEmptyAppend(raw[..i], [raw[i]]);
      assert NonEmpty([raw[i]]) == if raw[i] == "" then [] else [raw[i]];
      if raw[i] != "" {
        out := out + [raw[i]];
      }
    }
    assert raw[..|raw|] == raw;
  }

  /** The messages taken by these receivers, in turn. */
  function Receives(ids: seq<nat>): seq<Event> {
    seq(|ids|, i requires 0 <= i < |ids| => Event.Receive(ids[i]))
  }

  /** The sends of a write's first n lines; gaps(k) are the receivers that act before the k-th. */
  function Sends(n: nat, gaps: nat -> seq<nat>): seq<Event> {
    if n == 0 then [] else Sends(n - 1, gaps) + Receives(gaps(n - 1)) + [Event.Send]
  }

  lemma {:induction false} RunFromAppend(t: Task, a: seq<Event>, b: seq<Event>)
    requires t.Inv()
    ensures RunFrom(t, a + b) == RunFrom(RunFrom(t, a), b)
  {
    hide Step;
    if b == [] {
      assert a + b == a;
    } else {
      assert (a + b)[..|a + b| - 1] == a + b[..|b| - 1];
      RunFromAppend(t, a, b[..|b| - 1]);
    }
  }

  lemma RunFromOne(t: Task, e: Event)
    requires t.Inv()
    ensures RunFrom(t, [e]) == Step(t, e)
  {
    assert [e][..0] == [];
  }

  lemma WriteStarts(t: Task, p: string)
    requires t.Inv() && t.pending == []
    ensures Step(t, Event.Write(p)) == t.Write(p)
  {
  }

  lemma SendComes(t: Task, begun: seq<Event>, k: nat, gaps: nat -> seq<nat>, u: Task)
    requires t.Inv() && u == RunFrom(RunFrom(t, begun + Sends(k, gaps)), Receives(gaps(k))) && u.pending != []
    ensures RunFrom(t, begun + Sends(k + 1, gaps)) == u.Send()
  {
    hide Step, Receives, RunFrom, SplitLines, ChanInv;
    var before, drained := begun + Sends(k, gaps), Receives(gaps(k));
    assert begun + Sends(k + 1, gaps) == before + drained + [Event.Send];
    RunFromAppend(t, before, drained);
    RunFromAppend(t, before + drained, [Event.Send]);
    RunFromOne(u, Event.Send);
    assert Step(u, Event.Send) == u.Send() by { SendIsStep(u); }
  }

  lemma SendIsStep(u: Task)
    requires u.Inv() && u.pending != []
    ensures Step(u, Event.Send) == u.Send()
  {
  }

  lemma ReceiveIsStep(t: Task, id: nat)
    requires t.Inv()
    ensures Step(t, Event.Receive(id)) == t.Receive(id)
  {
  }

  class LiveTask {
    var logBuffer: string
    var subscribers: seq<nat>
    var isFinished: bool
    var chans: seq<Chan>
    ghost var pending: seq<string>
    ghost var atFinish: string

    ghost function View(): Task
      reads this
    {
      Task(logBuffer, pending, subscribers, isFinished, chans, atFinish)
    }

    constructor ()
      ensures View() == NEW_TASK
    {
      logBuffer, subscribers, isFinished, chans, pending, atFinish := "", [], false, [], [], "";
    }

    /** The receivers, each taking a message if there is one. */
    method Drain(ids: seq<nat>)
      requires View().Inv()
      modifies this`chans
      ensures View() == RunFrom(old(View()), Receives(ids)) && View().Inv()
    {
      ghost var t := View();
      hide Step, ChanInv;
      for k := 0 to |ids|
        invariant View() == RunFrom(t, Receives(ids[..k])) && View().Inv()
      {
        assert Receives(ids[..k + 1]) == Receives(ids[..k]) + [Event.Receive(ids[k])];
        RunFromAppend(t, Receives(ids[..k]), [Event.Receive(ids[k])]);
        RunFromOne(View(), Event.Receive(ids[k]));
        ReceiveIsStep(View(), ids[k]);
        var id := ids[k];
        if id < |chans| && chans[id].received < |chans[id].sent| {
          chans := chans[id := chans[id].(received := chans[id].received + 1)];
        }
      }
      assert ids[..|ids|] == ids;
    }

    /** One line to every subscriber, skipping those whose channel is full. */
    method BroadcastLocked(line: string)
      requires View().Inv()
      modifies this`chans
      ensures chans == Broadcast(old(chans), subscribers, line)
    {
      for k := 0 to |subscribers|
        invariant |chans| == |old(chans)|
        invariant forall i :: 0 <= i < |chans| ==>
                    chans[i] == if i in subscribers[..k] then old(chans)[i].Offer(line) else old(chans)[i]
      {
        var sub := subscribers[k];
        assert subscribers[..k + 1] == subscribers[..k] + [sub];
        assert sub !in subscribers[..k] && sub in subscribers;
        chans := chans[sub := chans[sub].Offer(line)];
      }
      assert subscribers[..|subscribers|] == subscribers;
    }

    /** `gaps(k)` are the receivers that happen to act before the k-th line is sent. */
    method Write(p: string, gaps: nat -> seq<nat>) returns (n: nat)
      requires View().Inv() && pending == []
      modifies this
      ensures n == |p| && pending == [] && View().Inv()
      ensures View() == RunFrom(old(View()), [Event.Write(p)] + Sends(|SplitLines(p)|, gaps))
    {
      ghost var t := View();
      hide Step;
      RunFromOne(t, Event.Write(p));
      n := |p|;
      if n == 0 {
        LinesOfNothing();
        WriteStarts(t, p);
        assert logBuffer + p == logBuffer && [Event.Write(p)] + [] == [Event.Write(p)];
        return;
      }
      logBuffer := logBuffer + p;
      var lines := SplitLinesLoop(p);
      pending := lines;
      ghost var begun := [Event.Write(p)];
      WriteStarts(t, p);
      assert begun + [] == begun;
      for k := 0 to |lines|
        invariant View() == RunFrom(t, begun + Sends(k, gaps)) && View().Inv() && pending == lines[k..]
      {
        Drain(gaps(k));
        ghost var u := View();
        BroadcastLocked(lines[k]);
        pending := pending[1..];
        SendComes(t, begun, k, gaps, u);
      }
    }

    method Subscribe() returns (id: nat)
      requires View().Inv() && pending == []
      modifies this
      ensures id == |old(chans)| && View() == old(View()).Subscribe() && View().Inv()
    {
      ghost var t := View();
      SubscribeKeepsInv(t);
      var lines := SplitLinesLoop(logBuffer);
      var sent: seq<string> := [];
      for k := 0 to |lines|
        invariant sent == lines[..k] && k <= CAPACITY
      {
        if |sent| >= CAPACITY {
          break;
        }
        sent := sent + [lines[k]];
      }
      assert sent == lines[..Min(CAPACITY, |lines|)];
      hide SplitLines, ChanInv;
      id := |chans|;
      if isFinished {
        chans := chans + [Chan(sent, 0, Late, lines, lines, logBuffer)];
      } else {
        chans := chans + [Chan(sent, 0, Open, lines, lines, "")];
        subscribers := subscribers + [id];
      }
    }

    method Cleanup(id: nat)
      requires View().Inv() && pending == []
      modifies this
      ensures View() == old(View()).Cleanup(id) && View().Inv()
    {
      ghost var t := View();
      CleanupKeepsInv(t, id);
      hide ChanInv;
      for k := 0 to |subscribers|
        invariant View() == t && id !in subscribers[..k]
      {
        if subscribers[k] == id {
          WithoutAt(subscribers, id, k);
          subscribers := subscribers[..k] + subscribers[k + 1..];
          chans := chans[id := chans[id].Close(CleanedUp, logBuffer)];
          return;
        }
      }
    }

    method CloseSubscribers()
      requires forall i :: i in subscribers ==> i < |chans| && !chans[i].Closed()
      requires forall j, k :: 0 <= j < k < |subscribers| ==> subscribers[j] != subscribers[k]
      modifies this`chans
      ensures |chans| == |old(chans)|
      ensures forall i :: 0 <= i < |chans| ==>
                chans[i] == if i in subscribers then old(chans)[i].Close(Finished, logBuffer) else old(chans)[i]
    {
      for k := 0 to |subscribers|
        invariant |chans| == |old(chans)|
        invariant forall i :: 0 <= i < |chans| ==>
                    chans[i]
                        == if i in subscribers[..k] then old(chans)[i].Close(Finished, logBuffer) else old(chans)[i]
      {
        assert subscribers[..k + 1] == subscribers[..k] + [subscribers[k]];
        assert subscribers[k] !in subscribers[..k] && subscribers[k] in subscribers;
        chans := chans[subscribers[k] := chans[subscribers[k]].Close(Finished, logBuffer)];
      }
      assert subscribers[..|subscribers|] == subscribers;
    }

    method Finish()
      requires View().Inv() && pending == []
      modifies this
      ensures View() == old(View()).Finish() && View().Inv()
    {
      ghost var t := View();
      FinishKeepsInv(t);
      hide ChanInv, SplitLines, Subsequence, Concat;
      atFinish := if isFinished then atFinish else logBuffer;
      isFinished := true;
      CloseSubscribers();
      subscribers := [];
      assert chans == t.Finish().chans;
    }

    /** Any step but those of a write, between writes. */
    method Perform(e: Event)
      requires View().Inv() && pending == [] && !e.Write? && !e.Send?
      modifies this
      ensures View() == Step(old(View()), e) && View().Inv()
    {
      match e
      case Subscribe =>
        var id := Subscribe();
      case Cleanup(id) => Cleanup(id);
      case Finish => Finish();
      case Receive(id) =>
        ghost var t := View();
        Drain([id]);
        assert Receives([id]) == [e];
        RunFromOne(t, e);
    }
  }

  lemma {:induction false} WithoutAt(s: seq<nat>, x: nat, k: nat)
    requires k < |s| && s[k] == x && x !in s[..k]
    ensures Without(s, x) == s[..k] + s[k + 1..]
  {
    if k > 0 {
      assert s[0] in s[..k];
      assert s[1..][..k - 1] == s[1..k];
      assert forall y :: y in s[1..k] ==> y in s[..k];
      WithoutAt(s[1..], x, k - 1);
    }
  }
}
