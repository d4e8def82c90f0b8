/**
 * Per-app secrets. Placeholders such as ${APP_SEED} in a template are replaced
 * by random values that are generated once and kept in a KEY=VALUE file, so
 * that a later installation of the app gets the same ones.
 */
module Secrets {
  import opened Text

  type Byte = n: nat | n < 256

  // ---- placeholders -------------------------------------------------------

  predicate NameChar(c: char) {
    'A' <= c <= 'Z' || '0' <= c <= '9' || c == '_'
  }

  predicate DatabaseName(name: string, suffix: string) {
    HasPrefix(name, "APP_") && HasSuffix(name, suffix) && |name| > 4 + |suffix|
  }

  /** The names the pattern accepts; the part between prefix and suffix is not empty. */
  predicate IsSecretName(name: string) {
    && (forall i :: 0 <= i < |name| ==> NameChar(name[i]))
    && (name == "APP_SEED" || name == "APP_PASSWORD" || DatabaseName(name, "_DB_PASSWORD")
        || DatabaseName(name, "_DB_USERNAME") || DatabaseName(name, "_DB_DATABASE_NAME"))
  }

  predicate AllNameChars(x: string) {
    forall i :: 0 <= i < |x| ==> NameChar(x[i])
  }

  /** APP_, something, and the suffix. */
  ghost predicate OfDatabase(name: string, suffix: string) {
    exists x :: x != "" && AllNameChars(x) && name == "APP_" + x + suffix
  }

  lemma DatabaseNameIff(name: string, suffix: string)
    requires AllNameChars(suffix)
    ensures AllNameChars(name) && DatabaseName(name, suffix) <==> OfDatabase(name, suffix)
  {
    if AllNameChars(name) && DatabaseName(name, suffix) {
      var x := name[4..|name| - |suffix|];
      assert name == name[..4] + x + name[|name| - |suffix|..];
      assert AllNameChars(x);
    }
    if x :| x != "" && AllNameChars(x) && name == "APP_" + x + suffix {
      assert name[..4] == "APP_";
      EndsWith("APP_" + x, suffix);
    }
  }

  lemma KnownWords()
    ensures AllNameChars("APP_SEED") && AllNameChars("APP_PASSWORD")
    ensures AllNameChars("_DB_PASSWORD") && AllNameChars("_DB_USERNAME") && AllNameChars("_DB_DATABASE_NAME")
  {
  }

  /** The names of the pattern, spelled out. */
  lemma SecretNameIff(name: string)
    ensures IsSecretName(name) <==>
              || name == "APP_SEED" || name == "APP_PASSWORD" || OfDatabase(name, "_DB_PASSWORD")
              || OfDatabase(name, "_DB_USERNAME") || OfDatabase(name, "_DB_DATABASE_NAME")
  {
    KnownWords();
    DatabaseNameIff(name, "_DB_PASSWORD");
    DatabaseNameIff(name, "_DB_USERNAME");
    DatabaseNameIff(name, "_DB_DATABASE_NAME");
    hide DatabaseName, OfDatabase;
  }

  function Placeholder(name: string): string {
    "${" + name + "}"
  }

  function NameRun(s: string): (name: string)
    ensures |name| <= |s| && name == s[..|name|]
    ensures forall i :: 0 <= i < |name| ==> NameChar(name[i])
    ensures |name| < |s| ==> !NameChar(s[|name|])
  {
    if s == "" || !NameChar(s[0]) then ""
    else
      var rest := NameRun(s[1..]);
      assert [s[0]] + rest == s[..1 + |rest|];
      [s[0]] + rest
  }

  /** The name of the placeholder that `s` starts with, if it does. */
  function MatchAt(s: string): (r: Option<string>)
    ensures r.Some? ==> IsSecretName(r.value) && HasPrefix(s, Placeholder(r.value))
  {
    if !HasPrefix(s, "${") then None
    else
      var name := NameRun(s[2..]);
      if 2 + |name| < |s| && s[2 + |name|] == '}' && IsSecretName(name) then
        assert s[..3 + |name|] == s[..2] + s[2..][..|name|] + [s[2 + |name|]];
        Some(name)
      else None
  }

  lemma {:induction false} NameRunOf(name: string, rest: string)
    requires forall i :: 0 <= i < |name| ==> NameChar(name[i])
    requires rest == "" || !NameChar(rest[0])
    ensures NameRun(name + rest) == name
  {
    if name == "" {
      assert name + rest == rest;
    } else {
      NameRunOf(name[1..], rest);
      assert (name + rest)[1..] == name[1..] + rest;
    }
  }

  /** The scanner accepts exactly the texts that start with a placeholder. */
  lemma MatchIsPrefix(s: string, name: string)
    requires IsSecretName(name)
    ensures MatchAt(s) == Some(name) <==> HasPrefix(s, Placeholder(name))
  {
    if HasPrefix(s, Placeholder(name)) {
      var rest := s[|name| + 2..];
      assert s[..2] == Placeholder(name)[..2] == "${";
      assert s[2..|name| + 2] == Placeholder(name)[2..|name| + 2] == name;
      assert s[2..] == name + rest;
      assert s[|name| + 2] == Placeholder(name)[|name| + 2] == '}';
      NameRunOf(name, rest);
    }
  }

  ghost predicate HasPlaceholder(s: string) {
    exists i :: 0 <= i <= |s| && MatchAt(s[i..]).Some?
  }

  // ---- templates ----------------------------------------------------------

  datatype Piece = Lit(c: char) | Hole(name: string)

  function Spelling(p: Piece): string {
    match p case Lit(c) => [c] case Hole(name) => Placeholder(name)
  }

  /** The first piece of a text, and what follows it. */
  function FirstPiece(s: string): (r: (Piece, string))
    requires s != ""
    ensures |r.1| < |s| && s == Spelling(r.0) + r.1
    ensures r.0.Hole? ==> IsSecretName(r.0.name)
  {
    match MatchAt(s)
    case Some(name) =>
      assert |Placeholder(name)| == |name| + 3;
      (Hole(name), s[|name| + 3..])
    case None => (Lit(s[0]), s[1..])
  }

  /** Left to right, placeholders do not overlap. */
  function Scan(s: string): seq<Piece>
    decreases |s|
  {
    if s == "" then []
    else
      var (first, rest) := FirstPiece(s);
      [first] + Scan(rest)
  }

  function Unscan(pieces: seq<Piece>): string {
    if pieces == [] then "" else Spelling(pieces[0]) + Unscan(pieces[1..])
  }

  function Names(pieces: seq<Piece>): set<string> {
    set p | p in pieces && p.Hole? :: p.name
  }

  function Value(p: Piece, values: map<string, string>): string {
    if p.Hole? && p.name in values then values[p.name] else Spelling(p)
  }

  /** Every hole filled with its name's value, everything else as it is. */
  function Fill(pieces: seq<Piece>, values: map<string, string>): string {
    if pieces == [] then "" else Value(pieces[0], values) + Fill(pieces[1..], values)
  }

  /** The pieces spell the template, so filling changes nothing outside the holes. */
  lemma {:induction false} ScanSpells(s: string)
    ensures Unscan(Scan(s)) == s
    ensures forall name :: name in Names(Scan(s)) ==> IsSecretName(name)
    decreases |s|
  {
    hide FirstPiece, IsSecretName;
    if s != "" {
      var (first, rest) := FirstPiece(s);
      ScanSpells(rest);
      NamesCons(first, Scan(rest));
      assert ([first] + Scan(rest))[1..] == Scan(rest);
    }
  }

  /** There is a hole exactly when a placeholder occurs anywhere in the text. */
  lemma {:induction false} HolesIffPlaceholder(s: string)
    ensures Names(Scan(s)) != {} <==> HasPlaceholder(s)
    decreases |s|
  {
    hide MatchAt;
    assert s[0..] == s;
    if s == "" {
      NothingToMatch();
    } else {
      var (first, rest) := FirstPiece(s);
      NamesCons(first, Scan(rest));
      if first.Hole? {
        assert MatchAt(s[0..]).Some?;
      } else {
        HolesIffPlaceholder(rest);
        assert forall i :: 0 < i <= |s| ==> s[i..] == rest[i - 1..];
        if HasPlaceholder(rest) {
          var i :| 0 <= i <= |rest| && MatchAt(rest[i..]).Some?;
          assert MatchAt(s[i + 1..]).Some?;
        }
      }
    }
  }

  lemma NoDollarNoMatch(c: char, s: string)
    requires c != '$'
    ensures MatchAt([c] + s).None?
  {
    var t := [c] + s;
    assert |t| >= 2 ==> t[..2][0] == c;
  }

  lemma EmptyHasNone()
    ensures !HasPlaceholder("")
  {
    NothingToMatch();
    assert ""[0..] == "";
  }

  lemma NothingToMatch()
    ensures MatchAt("").None?
  {
  }

  lemma NamesCons(p: Piece, pieces: seq<Piece>)
    ensures Names([p] + pieces) == (if p.Hole? then {p.name} else {}) + Names(pieces)
  {
    var all := [p] + pieces;
    forall name | name in Names(pieces) ensures name in Names(all) {
      var q :| q in pieces && q.Hole? && q.name == name;
      assert q in all;
    }
    assert p in all;
  }

  lemma {:induction false} FillAppend(a: seq<Piece>, b: seq<Piece>, values: map<string, string>)
    ensures Fill(a + b, values) == Fill(a, values) + Fill(b, values)
  {
    hide Value;
    if a == [] {
      assert a + b == b;
    } else {
      FillAppend(a[1..], b, values);
      assert (a + b)[1..] == a[1..] + b && (a + b)[0] == a[0];
      var first, rest, tail := Value(a[0], values), Fill(a[1..], values), Fill(b, values);
      assert first + (rest + tail) == first + rest + tail;
    }
  }

  /** A template is filled piece by piece: a character stays, a hole gets its name's value. */
  lemma FillInParts(a: seq<Piece>, p: Piece, b: seq<Piece>, values: map<string, string>)
    ensures p.Lit? ==> Fill(a + [p] + b, values) == Fill(a, values) + [p.c] + Fill(b, values)
    ensures p.Hole? && p.name in values ==>
              Fill(a + [p] + b, values) == Fill(a, values) + values[p.name] + Fill(b, values)
  {
    FillAppend(a + [p], b, values);
    FillAppend(a, [p], values);
    assert [p][1..] == [] && Fill([], values) == "";
    assert Fill([p], values) == Value(p, values) + "" == Value(p, values);
  }

  /** The same name gets the same value everywhere: two fillings that agree on the names used are equal. */
  lemma {:induction false} FillDependsOnNames(pieces: seq<Piece>, m: map<string, string>, n: map<string, string>)
    requires forall name :: name in Names(pieces) ==> name in m && name in n && m[name] == n[name]
    ensures Fill(pieces, m) == Fill(pieces, n)
  {
    if pieces != [] {
      NamesCons(pieces[0], pieces[1..]);
      assert pieces == [pieces[0]] + pieces[1..];
      FillDependsOnNames(pieces[1..], m, n);
    }
  }

  // ---- no placeholder is left, nor made -----------------------------------

  /** A value with no brace or dollar, and some character no name can have. */
  predicate Inert(v: string) {
    && (forall i :: 0 <= i < |v| ==> v[i] !in "${}")
    && (exists i :: 0 <= i < |v| && !NameChar(v[i]))
  }

  ghost predicate InertFor(pieces: seq<Piece>, values: map<string, string>) {
    forall name :: name in Names(pieces) ==> name in values && Inert(values[name])
  }

  /** The inside of a placeholder, up to its closing brace. */
  predicate Inside(w: string) {
    w != "" && w[|w| - 1] == '}' && forall i :: 0 <= i < |w| ==> NameChar(w[i]) || w[i] in "{}"
  }

  /** Such a text at the start of a filled template was there before the filling. */
  lemma {:induction false} InsideWasThere(s: string, values: map<string, string>, w: string)
    requires InertFor(Scan(s), values) && Inside(w)
    requires HasPrefix(Fill(Scan(s), values), w)
    ensures HasPrefix(s, w)
    decreases |s|
  {
    hide FirstPiece, Inert, MatchAt;
    if s != "" {
      var (first, rest) := FirstPiece(s);
      NamesCons(first, Scan(rest));
      FillFirst(s, values);
      match first
      case Hole(name) =>
        InertSplits(values[name], Fill(Scan(rest), values), w);
      case Lit(c) =>
        PrefixCons(c, Fill(Scan(rest), values), w);
        PrefixCons(c, rest, w);
        if |w| > 1 {
          InsideWasThere(rest, values, w[1..]);
        }
    }
  }

  lemma PrefixCons(c: char, s: string, w: string)
    requires w != ""
    ensures HasPrefix([c] + s, w) <==> w[0] == c && HasPrefix(s, w[1..])
  {
    var t := [c] + s;
    if |w| <= |t| {
      assert t[..|w|] == [c] + s[..|w| - 1];
      assert w == [w[0]] + w[1..];
      assert t[..|w|][1..] == s[..|w| - 1];
    }
  }

  lemma FillFirst(s: string, values: map<string, string>)
    requires s != ""
    ensures var (first, rest) := FirstPiece(s);
            Fill(Scan(s), values) == Value(first, values) + Fill(Scan(rest), values)
  {
    hide FirstPiece;
    var (first, rest) := FirstPiece(s);
    assert ([first] + Scan(rest))[1..] == Scan(rest);
  }

  /** The inside of a placeholder cannot begin with, or within, an inert value. */
  lemma InertSplits(v: string, rest: string, w: string)
    requires Inert(v) && Inside(w)
    ensures !HasPrefix(v + rest, w)
  {
    var i :| 0 <= i < |v| && !NameChar(v[i]);
    if |w| <= |v + rest| {
      var start := (v + rest)[..|w|];
      if |w| <= |v| {
        assert start[|w| - 1] == v[|w| - 1] != w[|w| - 1];
      } else {
        assert start[i] == v[i] != w[i];
      }
    }
  }

  /**
   * When every value is inert, the filled template holds no placeholder at all,
   * also where filling one joined the two halves of another's name.
   */
  lemma {:induction false} NothingLeft(s: string, values: map<string, string>)
    requires InertFor(Scan(s), values)
    ensures !HasPlaceholder(Fill(Scan(s), values))
    decreases |s|
  {
    hide FirstPiece, MatchAt, HasPlaceholder, Inert, NameChar;
    if s == "" {
      EmptyHasNone();
    } else {
      var (first, rest) := FirstPiece(s);
      NamesCons(first, Scan(rest));
      NothingLeft(rest, values);
      FillFirst(s, values);
      match first
      case Hole(name) =>
        BehindInert(values[name], Fill(Scan(rest), values));
      case Lit(c) =>
        MatchWasThere(s, values);
        BehindOne(c, Fill(Scan(rest), values));
    }
  }

  lemma BehindInert(v: string, tail: string)
    requires Inert(v) && !HasPlaceholder(tail)
    ensures !HasPlaceholder(v + tail)
  {
    hide MatchAt, NameChar;
    var out := v + tail;
    forall i | 0 <= i <= |out| ensures MatchAt(out[i..]).None? {
      if i >= |v| {
        assert out[i..] == tail[i - |v|..];
      } else {
        assert out[i..] == [v[i]] + out[i + 1..];
        NoDollarNoMatch(v[i], out[i + 1..]);
      }
    }
  }

  lemma BehindOne(c: char, tail: string)
    requires MatchAt([c] + tail).None? && !HasPlaceholder(tail)
    ensures !HasPlaceholder([c] + tail)
  {
    hide MatchAt;
    var out := [c] + tail;
    assert out[0..] == out;
    assert forall i :: 0 < i <= |out| ==> out[i..] == tail[i - 1..];
  }

  lemma MatchWasThere(s: string, values: map<string, string>)
    requires s != "" && FirstPiece(s).0.Lit? && InertFor(Scan(FirstPiece(s).1), values)
    ensures MatchAt(Fill(Scan(s), values)).None?
  {
    FillFirst(s, values);
    var c, rest := s[0], FirstPiece(s).1;
    assert s == [c] + rest;
    var tail := Fill(Scan(rest), values);
    hide Scan, Fill;
    if MatchAt([c] + tail).Some? {
      var name := MatchAt([c] + tail).value;
      StartsInside(c, tail, name);
      InsideWasThere(rest, values, "{" + name + "}");
      StartsInside(c, rest, name);
      MatchIsPrefix(s, name);
    }
  }

  /** A placeholder starts a text when its dollar is first and its inside follows. */
  lemma StartsInside(c: char, rest: string, name: string)
    ensures HasPrefix([c] + rest, Placeholder(name)) <==> c == '$' && HasPrefix(rest, "{" + name + "}")
    ensures IsSecretName(name) ==> Inside("{" + name + "}")
  {
    var s, whole, w := [c] + rest, Placeholder(name), "{" + name + "}";
    assert whole == "$" + w;
    if HasPrefix(s, whole) {
      assert s[0] == s[..|whole|][0] == '$';
      assert rest[..|w|] == s[..|whole|][1..] == w;
    }
    if c == '$' && HasPrefix(rest, w) {
      assert s[..|whole|] == [c] + rest[..|w|];
    }
  }

  lemma FillLit(c: char, s: string, values: map<string, string>)
    requires MatchAt([c] + s).None?
    ensures Fill(Scan([c] + s), values) == [c] + Fill(Scan(s), values)
  {
    FillFirst([c] + s, values);
    assert ([c] + s)[1..] == s;
  }

  lemma FillHole(name: string, s: string, values: map<string, string>)
    requires IsSecretName(name) && name in values
    ensures Fill(Scan(Placeholder(name) + s), values) == values[name] + Fill(Scan(s), values)
  {
    var whole := Placeholder(name) + s;
    assert whole[..|name| + 3] == Placeholder(name) && whole[|name| + 3..] == s;
    MatchIsPrefix(whole, name);
    FillFirst(whole, values);
  }

  // ---- generated values ---------------------------------------------------

  function HexDigit(n: nat): char
    requires n < 16
  {
    if n < 10 then '0' + n as char else 'a' + (n - 10) as char
  }

  function RandomHex(bytes: seq<Byte>): string {
    if bytes == [] then "" else [HexDigit(bytes[0] / 16), HexDigit(bytes[0] % 16)] + RandomHex(bytes[1..])
  }

  function RandomAlpha(bytes: seq<Byte>): string {
    seq(|bytes|, i requires 0 <= i < |bytes| => 'a' + (bytes[i] % 26) as char)
  }

  /** Database user and database names are short words; passwords and seeds are hexadecimal. */
  predicate IsWord(name: string) {
    HasSuffix(name, "_DB_USERNAME") || HasSuffix(name, "_DB_DATABASE_NAME")
  }

  function EntropyLength(name: string): nat {
    if IsWord(name) then 12 else if name == "APP_SEED" then 32 else 16
  }

  function GenerateSecret(name: string, bytes: seq<Byte>): string {
    if IsWord(name) then RandomAlpha(bytes) else RandomHex(bytes)
  }

  predicate Generated(v: string) {
    v != "" && forall i :: 0 <= i < |v| ==> 'a' <= v[i] <= 'z' || '0' <= v[i] <= '9'
  }

  lemma {:induction false} HexAlphabet(bytes: seq<Byte>)
    ensures |RandomHex(bytes)| == 2 * |bytes|
    ensures forall i :: 0 <= i < 2 * |bytes| ==>
              'a' <= RandomHex(bytes)[i] <= 'f' || '0' <= RandomHex(bytes)[i] <= '9'
  {
    if bytes != [] {
      HexAlphabet(bytes[1..]);
    }
  }

  /** All the randomness of a hexadecimal value counts: other bytes, another value. */
  lemma {:induction false} HexIsInjective(a: seq<Byte>, b: seq<Byte>)
    ensures RandomHex(a) == RandomHex(b) ==> a == b
    decreases |a|
  {
    HexAlphabet(a);
    HexAlphabet(b);
    if RandomHex(a) == RandomHex(b) && a != [] {
      HexIsInjective(a[1..], b[1..]);
      assert RandomHex(a)[2..] == RandomHex(a[1..]) && RandomHex(b)[2..] == RandomHex(b[1..]);
      HexByte(a[0], b[0]);
      assert RandomHex(a)[0] == HexDigit(a[0] / 16) && RandomHex(a)[1] == HexDigit(a[0] % 16);
      assert RandomHex(b)[0] == HexDigit(b[0] / 16) && RandomHex(b)[1] == HexDigit(b[0] % 16);
      assert a == [a[0]] + a[1..] && b == [b[0]] + b[1..];
    }
  }

  lemma HexByte(x: Byte, y: Byte)
    requires HexDigit(x / 16) == HexDigit(y / 16) && HexDigit(x % 16) == HexDigit(y % 16)
    ensures x == y
  {
  }

  /** A word depends on every byte, as far as 26 letters can tell them apart. */
  lemma AlphaTellsApart(a: seq<Byte>, b: seq<Byte>)
    requires |a| == |b|
    ensures RandomAlpha(a) == RandomAlpha(b) <==> forall i :: 0 <= i < |a| ==> a[i] % 26 == b[i] % 26
  {
    forall i | 0 <= i < |a| ensures RandomAlpha(a)[i] == RandomAlpha(b)[i] <==> a[i] % 26 == b[i] % 26 {
    }
    if forall i :: 0 <= i < |a| ==> RandomAlpha(a)[i] == RandomAlpha(b)[i] {
      assert RandomAlpha(a) == RandomAlpha(b);
    }
  }

  /** User and database names are words; the seed and the passwords are hexadecimal. */
  lemma WordsAreNames(x: string, name: string, bytes: seq<Byte>)
    ensures name == "APP_" + x + "_DB_USERNAME" || name == "APP_" + x + "_DB_DATABASE_NAME" ==>
              GenerateSecret(name, bytes) == RandomAlpha(bytes) && EntropyLength(name) == 12
    ensures name == "APP_SEED" ==> GenerateSecret(name, bytes) == RandomHex(bytes) && EntropyLength(name) == 32
    ensures name == "APP_PASSWORD" || name == "APP_" + x + "_DB_PASSWORD" ==>
              GenerateSecret(name, bytes) == RandomHex(bytes) && EntropyLength(name) == 16
  {
    EndsWith("APP_" + x, "_DB_USERNAME");
    EndsWith("APP_" + x, "_DB_DATABASE_NAME");
    assert name == "APP_" + x + "_DB_PASSWORD" ==> name[|name| - 1] == 'D';
  }

  /** 12 letters, 64 hexadecimal digits for the seed, 32 for anything else. */
  lemma GeneratedShape(name: string, bytes: seq<Byte>)
    requires |bytes| == EntropyLength(name)
    ensures Generated(GenerateSecret(name, bytes))
    ensures |GenerateSecret(name, bytes)| == if IsWord(name) then 12 else if name == "APP_SEED" then 64 else 32
  {
    HexAlphabet(bytes);
  }

  /** A generated value is inert exactly when it has a letter; words always do. */
  lemma GeneratedInert(v: string)
    requires Generated(v)
    ensures Inert(v) <==> exists i :: 0 <= i < |v| && 'a' <= v[i] <= 'z'
  {
  }

  /** A value of digits alone can complete another placeholder's name. */
  lemma DigitsCanNest(v: string)
    requires Generated(v) && !Inert(v)
    ensures HasPlaceholder(Fill(Scan("${APP_" + Placeholder("APP_SEED") + "_DB_PASSWORD}"), map["APP_SEED" := v]))
  {
    hide Scan, Fill, MatchAt, IsSecretName, Inert, Generated;
    var values, right := map["APP_SEED" := v], "_DB_PASSWORD}";
    var tail := Placeholder("APP_SEED") + right;
    var out := Fill(Scan("${APP_" + tail), values);
    assert "${APP_" + Placeholder("APP_SEED") + right == "${APP_" + tail;
    FillPlain(right, "", values);
    FillNothing(values);
    assert right + "" == right;
    SeedIsSecret();
    FillHole("APP_SEED", right, values);
    assert Fill(Scan(tail), values) == v + right;
    FillOpening(tail, values);
    NestedName(v);
    var name := "APP_" + v + "_DB_PASSWORD";
    assert out == "${APP_" + (v + right) == Placeholder(name);
    MatchIsPrefix(out, name);
    assert out[0..] == out;
  }

  lemma SeedIsSecret()
    ensures IsSecretName("APP_SEED")
  {
  }

  lemma NestedName(v: string)
    requires Generated(v) && !Inert(v)
    ensures IsSecretName("APP_" + v + "_DB_PASSWORD")
  {
    var name := "APP_" + v + "_DB_PASSWORD";
    assert forall i :: 0 <= i < |v| ==> NameChar(v[i]);
    assert name[..4] == "APP_" && name[|name| - 12..] == "_DB_PASSWORD";
    assert DatabaseName(name, "_DB_PASSWORD");
  }

  lemma FillNothing(values: map<string, string>)
    ensures Fill(Scan(""), values) == ""
  {
  }

  /** Text without a dollar is kept. */
  lemma {:induction false} FillPlain(s: string, tail: string, values: map<string, string>)
    requires '$' !in s
    ensures Fill(Scan(s + tail), values) == s + Fill(Scan(tail), values)
  {
    hide Scan, Fill, MatchAt;
    if s == "" {
      assert s + tail == tail;
    } else {
      FillPlain(s[1..], tail, values);
      assert s + tail == [s[0]] + (s[1..] + tail);
      NoDollarNoMatch(s[0], s[1..] + tail);
      FillLit(s[0], s[1..] + tail, values);
      var rest := Fill(Scan(tail), values);
      assert [s[0]] + (s[1..] + rest) == s + rest;
    }
  }

  lemma OpeningNoMatch(tail: string)
    requires tail != "" && tail[0] == '$'
    ensures MatchAt("${APP_" + tail).None?
  {
    var s := "${APP_" + tail;
    assert s[2..] == "APP_" + tail;
    NameRunOf("APP_", tail);
    assert s[6] == tail[0];
  }

  /** An opening broken off by another placeholder is kept too. */
  lemma FillOpening(tail: string, values: map<string, string>)
    requires tail != "" && tail[0] == '$'
    ensures Fill(Scan("${APP_" + tail), values) == "${APP_" + Fill(Scan(tail), values)
  {
    hide Scan, Fill, MatchAt;
    OpeningNoMatch(tail);
    var rest := Fill(Scan(tail), values);
    assert "${APP_" + tail == ['$'] + ("{APP_" + tail);
    FillLit('$', "{APP_" + tail, values);
    FillPlain("{APP_", tail, values);
    assert ['$'] + ("{APP_" + rest) == "${APP_" + rest;
  }
}
