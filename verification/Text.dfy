/** Strings as the Go library sees them: prefixes, suffixes, splitting, trimming, case folding. */
module Text {

  datatype Option<+T> = None | Some(value: T)

  /** `order` lists the elements of `s`, each once. */
  ghost predicate IsOrderOf(order: seq<string>, s: set<string>) {
    && (forall x :: x in order <==> x in s)
    && (forall i, j :: 0 <= i < j < |order| ==> order[i] != order[j])
  }

  predicate HasPrefix(s: string, prefix: string)
    ensures HasPrefix(s, prefix) <==> prefix <= s
  {
    |prefix| <= |s| && s[..|prefix|] == prefix
  }

  predicate HasSuffix(s: string, suffix: string)
    ensures HasSuffix(s, suffix) ==> |suffix| <= |s| && s == s[..|s| - |suffix|] + suffix
  {
    |suffix| <= |s| && s[|s| - |suffix|..] == suffix
  }

  lemma EndsWith(front: string, suffix: string)
    ensures HasSuffix(front + suffix, suffix)
  {
  }

  /** `d` is `c`, or the small letter of the ASCII capital `c`. */
  predicate FoldsTo(c: char, d: char) {
    if 'A' <= c <= 'Z' then d as int == c as int + 32 else d == c
  }

  predicate AllFold(s: string, r: string) {
    |r| == |s| && forall i :: 0 <= i < |s| ==> FoldsTo(s[i], r[i])
  }

  /** strings.ToLower, restricted to the ASCII letters. */
  function ToLower(s: string): (r: string)
    ensures AllFold(s, r)
  {
    seq(|s|, i requires 0 <= i < |s| => if 'A' <= s[i] <= 'Z' then s[i] - 'A' + 'a' else s[i])
  }

  /** The index of the first `c` in `s`, or |s| when there is none. */
  function IndexOf(s: string, c: char): (i: nat)
    ensures i <= |s|
    ensures forall j :: 0 <= j < i ==> s[j] != c
    ensures i < |s| ==> s[i] == c
  {
    if s == "" || s[0] == c then 0 else 1 + IndexOf(s[1..], c)
  }

  /** strings.Split with a one-character separator: always at least one part. */
  function Split(s: string, sep: char): (parts: seq<string>)
    ensures |parts| >= 1
  {
    if s == "" then [""]
    else
      var rest := Split(s[1..], sep);
      if s[0] == sep then [""] + rest else [[s[0]] + rest[0]] + rest[1..]
  }

  function Join(parts: seq<string>, sep: char): (s: string)
  {
    if |parts| == 0 then ""
    else if |parts| == 1 then parts[0]
    else parts[0] + [sep] + Join(parts[1..], sep)
  }

  /** Splitting loses nothing, and no part holds the separator. */
  lemma {:induction false} SplitJoin(s: string, sep: char)
    ensures Join(Split(s, sep), sep) == s
    ensures forall i :: 0 <= i < |Split(s, sep)| ==> sep !in Split(s, sep)[i]
  {
    if s != "" {
      SplitJoin(s[1..], sep);
      var rest := Split(s[1..], sep);
      var parts := Split(s, sep);
      if s[0] == sep {
        assert parts[1..] == rest;
        assert "" + [sep] == [s[0]];
      } else {
        assert parts[1..] == rest[1..];
        assert [s[0]] + s[1..] == s;
        if |rest| > 1 {
          assert [s[0]] + rest[0] + [sep] + Join(rest[1..], sep) == [s[0]] + (rest[0] + [sep] + Join(rest[1..], sep));
        }
      }
    }
  }

  /** Splitting a text that starts with a complete line peels that line off. */
  lemma {:induction false} SplitLine(line: string, s: string, sep: char)
    requires sep !in line
    ensures Split(line + [sep] + s, sep) == [line] + Split(s, sep)
  {
    var t := line + [sep] + s;
    if line == "" {
      assert t[1..] == s;
    } else {
      SplitLine(line[1..], s, sep);
      assert t[1..] == line[1..] + [sep] + s;
      assert [line[0]] + line[1..] == line;
    }
  }

  lemma {:induction false} SplitOne(s: string, sep: char)
    requires sep !in s
    ensures Split(s, sep) == [s]
  {
    if s != "" {
      SplitOne(s[1..], sep);
      assert [s[0]] + s[1..] == s;
    }
  }

  /** unicode.IsSpace, as used by strings.TrimSpace. */
  predicate IsSpace(c: char) {
    c in "\t\n\r " || c == '\U{0B}' || c == '\U{0C}' || c == '\U{85}' || c == '\U{A0}' || c == '\U{1680}'
    || '\U{2000}' <= c <= '\U{200A}' || c in "\U{2028}\U{2029}\U{202F}\U{205F}\U{3000}"
  }

  function TrimLeft(s: string): (t: string)
    ensures t != "" ==> !IsSpace(t[0])
    ensures |t| <= |s| && t == s[|s| - |t|..]
  {
    if s == "" || !IsSpace(s[0]) then s else TrimLeft(s[1..])
  }

  function TrimRight(s: string): (t: string)
    ensures t != "" ==> !IsSpace(t[|t| - 1])
    ensures |t| <= |s| && t == s[..|t|]
  {
    if s == "" || !IsSpace(s[|s| - 1]) then s else TrimRight(s[..|s| - 1])
  }

  predicate Trimmed(s: string) {
    s != "" ==> !IsSpace(s[0]) && !IsSpace(s[|s| - 1])
  }

  /** strings.TrimSpace: the result is a slice of the input with no white space at either end. */
  function TrimSpace(s: string): (t: string)
    ensures Trimmed(t) && |t| <= |s|
    ensures exists i, j :: 0 <= i <= j <= |s| && t == s[i..j]
    ensures Trimmed(s) ==> t == s
  {
    hide IsSpace;
    var l := TrimLeft(s);
    var t := TrimRight(l);
    assert t == s[|s| - |l|..|s| - |l| + |t|];
    t
  }

  predicate AllSpace(s: string) {
    forall i :: 0 <= i < |s| ==> IsSpace(s[i])
  }

  lemma {:induction false} TrimLeftSpace(a: string, t: string)
    requires AllSpace(a) && (t == "" || !IsSpace(t[0]))
    ensures TrimLeft(a + t) == t
  {
    hide IsSpace;
    if a == "" {
      assert a + t == t;
    } else {
      assert (a + t)[1..] == a[1..] + t;
      TrimLeftSpace(a[1..], t);
    }
  }

  lemma {:induction false} TrimRightSpace(t: string, b: string)
    requires AllSpace(b) && (t == "" || !IsSpace(t[|t| - 1]))
    ensures TrimRight(t + b) == t
  {
    hide IsSpace;
    if b == "" {
      assert t + b == t;
    } else {
      assert (t + b)[..|t + b| - 1] == t + b[..|b| - 1];
      TrimRightSpace(t, b[..|b| - 1]);
    }
  }

  /** White space at the ends goes, and nothing else. */
  lemma TrimTakesSpace(a: string, t: string, b: string)
    requires AllSpace(a) && AllSpace(b) && Trimmed(t)
    ensures TrimSpace(a + t + b) == t
  {
    hide IsSpace;
    if t == "" {
      assert AllSpace(a + t + b);
      TrimLeftSpace(a + t + b, "");
      assert a + t + b + "" == a + t + b;
    } else {
      assert a + t + b == a + (t + b);
      assert (t + b)[0] == t[0];
      TrimLeftSpace(a, t + b);
      TrimRightSpace(t, b);
    }
  }

  lemma {:induction false} LeftTaken(s: string)
    ensures AllSpace(s[..|s| - |TrimLeft(s)|])
  {
    hide IsSpace;
    if s != "" && IsSpace(s[0]) {
      LeftTaken(s[1..]);
      var n := |s| - |TrimLeft(s)|;
      assert forall i :: 0 < i < n ==> s[i] == s[1..][..n - 1][i - 1];
    }
  }

  lemma {:induction false} RightTaken(s: string)
    ensures AllSpace(s[|TrimRight(s)|..])
  {
    hide IsSpace;
    if s != "" && IsSpace(s[|s| - 1]) {
      var init := s[..|s| - 1];
      RightTaken(init);
      assert s[|TrimRight(s)|..] == init[|TrimRight(init)|..] + [s[|s| - 1]];
    }
  }

  /** What is taken from the ends is white space. */
  lemma SpaceTaken(s: string) returns (a: string, b: string)
    ensures AllSpace(a) && AllSpace(b) && s == a + TrimSpace(s) + b
  {
    hide IsSpace, TrimLeft, TrimRight, AllSpace;
    var l := TrimLeft(s);
    LeftTaken(s);
    RightTaken(l);
    a, b := s[..|s| - |l|], l[|TrimRight(l)|..];
    assert s == a + l;
    assert l == TrimRight(l) + b;
    assert a + (TrimRight(l) + b) == a + TrimRight(l) + b;
  }

  lemma SpacesAndPrintables(c: char)
    ensures c in " \t\n\r" ==> IsSpace(c)
    ensures '!' <= c <= '~' ==> !IsSpace(c)
  {
  }

  /** Byte-wise string order, the `<` of Go strings. */
  predicate Less(a: string, b: string) {
    b != "" && (a == "" || a[0] < b[0] || (a[0] == b[0] && Less(a[1..], b[1..])))
  }

  /** The strings agree up to some place, and there the first ends, or has the smaller character. */
  ghost predicate LessAt(a: string, b: string, k: nat) {
    k <= |a| && k < |b| && a[..k] == b[..k] && (k == |a| || a[k] < b[k])
  }

  lemma {:induction false} LessIff(a: string, b: string)
    ensures Less(a, b) <==> exists k: nat :: LessAt(a, b, k)
  {
    if a == "" {
      assert b != "" ==> LessAt(a, b, 0);
    } else if b != "" && a[0] == b[0] {
      var s, t := a[1..], b[1..];
      LessIff(s, t);
      if k: nat :| LessAt(s, t, k) {
        assert a[..k + 1] == [a[0]] + s[..k] && b[..k + 1] == [b[0]] + t[..k];
        assert LessAt(a, b, k + 1);
      }
      if k: nat :| LessAt(a, b, k) {
        assert k > 0 && s[..k - 1] == a[..k][1..] && t[..k - 1] == b[..k][1..];
        assert LessAt(s, t, k - 1);
      }
    } else if b != "" {
      assert a[0] < b[0] ==> LessAt(a, b, 0);
      forall k: nat | LessAt(a, b, k) ensures k > 0 ==> a[0] == b[0] {
        SameHead(a, b, k);
      }
    }
  }

  lemma SameHead(a: string, b: string, k: nat)
    requires LessAt(a, b, k)
    ensures k > 0 ==> a[0] == b[0]
  {
    if k > 0 {
      assert a[..k][0] == b[..k][0];
    }
  }

  lemma {:induction false} LessTotal(a: string, b: string)
    ensures Less(a, b) || a == b || Less(b, a)
    ensures !(Less(a, b) && (a == b || Less(b, a)))
  {
    if a != "" && b != "" && a[0] == b[0] {
      LessTotal(a[1..], b[1..]);
      assert a == [a[0]] + a[1..] && b == [b[0]] + b[1..];
    } else if a == b {
      LessIrreflexive(a);
    }
  }

  lemma {:induction false} LessIrreflexive(a: string)
    ensures !Less(a, a)
  {
    if a != "" {
      LessIrreflexive(a[1..]);
    }
  }

  lemma {:induction false} LessTransitive(a: string, b: string, c: string)
    requires Less(a, b) && Less(b, c)
    ensures Less(a, c)
  {
    if a != "" && a[0] == b[0] == c[0] {
      LessTransitive(a[1..], b[1..], c[1..]);
    }
  }
}
