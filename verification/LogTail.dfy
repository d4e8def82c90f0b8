/** The tail of a log file, read backwards in chunks until it holds enough newlines. */
module LogTail {

  function Newlines(s: string): nat {
    if s == "" then 0 else (if s[0] == '\n' then 1 else 0) + Newlines(s[1..])
  }

  /** The longest suffix with at most n newlines that starts the file or follows a newline. */
  function Tail(s: string, n: nat): string {
    if Newlines(s) <= n then s else Tail(s[1..], n)
  }

  lemma {:induction false} NewlinesAppend(a: string, b: string)
    ensures Newlines(a + b) == Newlines(a) + Newlines(b)
  {
    if a == "" {
      assert a + b == b;
    } else {
      NewlinesAppend(a[1..], b);
      assert (a + b)[1..] == a[1..] + b;
    }
  }

  /** They are counted one by one. */
  lemma {:induction false} NewlinesAreCounted(s: string)
    ensures Newlines(s) == |set i | 0 <= i < |s| && s[i] == '\n'|
  {
    if s != "" {
      var init, last := s[..|s| - 1], s[|s| - 1];
      NewlinesAreCounted(init);
      assert s == init + [last];
      NewlinesAppend(init, [last]);
      assert [last][1..] == "";
      var before := set i | 0 <= i < |init| && init[i] == '\n';
      assert (set i | 0 <= i < |s| && s[i] == '\n') == before + if last == '\n' then {|init|} else {};
    }
  }

  /** A suffix after a newline that holds exactly n newlines is the tail, and there is no other. */
  lemma {:induction false} AfterNewline(before: string, t: string, n: nat)
    requires Newlines(t) == n
    ensures Tail(before + "\n" + t, n) == t
  {
    var s := before + "\n" + t;
    NewlinesAppend(before + "\n", t);
    NewlinesAppend(before, "\n");
    if before == "" {
      assert s[1..] == t;
    } else {
      AfterNewline(before[1..], t, n);
      assert s[1..] == before[1..] + "\n" + t;
    }
  }

  /**
   * The tail is the whole text if that has at most n newlines; otherwise it is
   * what follows some newline and holds exactly n of them.
   */
  lemma {:induction false} TailIsExact(s: string, n: nat) returns (before: string)
    ensures Newlines(s) <= n ==> Tail(s, n) == s
    ensures Newlines(s) > n ==> s == before + "\n" + Tail(s, n) && Newlines(Tail(s, n)) == n
  {
    before := "";
    if Newlines(s) > n {
      assert s == [s[0]] + s[1..];
      if s[0] == '\n' && Newlines(s[1..]) == n {
        assert s == "" + "\n" + s[1..];
      } else {
        var rest := TailIsExact(s[1..], n);
        before := [s[0]] + rest;
        assert [s[0]] + (rest + "\n" + Tail(s, n)) == before + "\n" + Tail(s, n);
      }
    }
  }

  /** Text in front of enough newlines does not matter. */
  lemma {:induction false} TailOfSuffix(a: string, b: string, n: nat)
    requires Newlines(b) > n
    ensures Tail(a + b, n) == Tail(b, n)
  {
    if a == "" {
      assert a + b == b;
    } else {
      TailOfSuffix(a[1..], b, n);
      NewlinesAppend(a, b);
      assert (a + b)[1..] == a[1..] + b;
    }
  }

  function Lines(s: string): nat {
    Newlines(s) + if s != "" && s[|s| - 1] != '\n' then 1 else 0
  }

  /** When something was cut off, the tail has n lines if the file ends with a newline, and one more if it does not. */
  lemma TailLines(s: string, n: nat)
    requires Newlines(s) > n
    ensures Lines(Tail(s, n)) == n <==> s[|s| - 1] == '\n'
    ensures n <= Lines(Tail(s, n)) <= n + 1
  {
    var before := TailIsExact(s, n);
    var t := Tail(s, n);
    assert s == before + "\n" + t;
    assert t != "" ==> s[|s| - 1] == t[|t| - 1];
    assert t == "" ==> s[|s| - 1] == '\n';
  }

  method CountNewlines(buf: string) returns (newlines: nat)
    ensures newlines == Newlines(buf)
  {
    newlines := 0;
    for i := 0 to |buf|
      invariant newlines == Newlines(buf[..i])
    {
      assert buf[..i + 1] == buf[..i] + [buf[i]];
      NewlinesAppend(buf[..i], [buf[i]]);
      assert [buf[i]][1..] == "";
      if buf[i] == '\n' {
        newlines := newlines + 1;
      }
    }
    assert buf[..|buf|] == buf;
  }

  method GetSystemLogs(file: string, lineNumber: int, chunkSize: nat) returns (tail: string)
    requires chunkSize > 0
    ensures tail == Tail(file, if lineNumber <= 0 then 100 else lineNumber)
  {
    var wanted := if lineNumber <= 0 then 100 else lineNumber;
    var buf := "";
    var offset := |file|;
    var newlines := 0;
    while offset > 0 && newlines <= wanted
      invariant 0 <= offset <= |file| && buf == file[offset..] && newlines == Newlines(buf)
      decreases offset
    {
      var read := if offset < chunkSize then offset else chunkSize;
      offset := offset - read;
      var chunk := file[offset..offset + read];
      buf := chunk + buf;
      newlines := CountNewlines(buf);
      if offset == 0 {
        break;
      }
    }
    assert file == file[..offset] + buf;
    if newlines > wanted {
      TailOfSuffix(file[..offset], buf, wanted);
      tail := DropLines(buf, newlines - wanted);
    } else {
      tail := buf;
    }
  }

  /** What follows the `extra`-th newline; everything, if there are fewer. */
  method DropLines(buf: string, extra: nat) returns (tail: string)
    requires extra > 0
    ensures tail == if extra <= Newlines(buf) then Tail(buf, Newlines(buf) - extra) else buf
  {
    var left := extra;
    for i := 0 to |buf|
      invariant left > 0 && left == extra - Newlines(buf[..i])
    {
      assert buf[..i + 1] == buf[..i] + [buf[i]];
      NewlinesAppend(buf[..i], [buf[i]]);
      assert [buf[i]][1..] == "";
      if buf[i] == '\n' {
        left := left - 1;
        if left == 0 {
          tail := buf[i + 1..];
          assert buf == buf[..i] + "\n" + tail;
          NewlinesAppend(buf[..i + 1], tail);
          assert buf == buf[..i + 1] + tail;
          AfterNewline(buf[..i], tail, Newlines(tail));
          return;
        }
      }
    }
    assert buf[..|buf|] == buf;
    tail := buf;
  }
}
