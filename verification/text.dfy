/**
  String normalisation and token phrases, shared by both address matchers.

  `norm` folds every character (accent removal, lower case), replaces each run of characters
  outside [a-z0-9] by one space and trims. The fold is a parameter here: any per-character map
  that leaves [a-z0-9] and the space alone. What the two matchers rely on is that a normalised
  string IS its token list, and that the regular expression built by `containsPhrase` asks for a
  contiguous sublist of tokens.
*/
module Text {

  datatype Option<+T> = None | Some(value: T)

  predicate NotToken(c: char) {
    !('a' <= c <= 'z' || '0' <= c <= '9')
  }

  /** The characters matched by `\s` in a JavaScript regular expression. */
  predicate IsWhitespace(c: char) {
    c == ' ' || '\t' <= c <= '\r' || c == '\U{00a0}' || c == '\U{1680}' || '\U{2000}' <= c <= '\U{200a}'
    || c == '\U{2028}' || c == '\U{2029}' || c == '\U{202f}' || c == '\U{205f}' || c == '\U{3000}' || c == '\U{feff}'
  }

  /** The characters a normalised token is made of. */
  const ALPHABET := "abcdefghijklmnopqrstuvwxyz0123456789"

  lemma TokenCharacters(c: char)
    ensures !NotToken(c) <==> c in ALPHABET
  {
    if !NotToken(c) {
      var i := if c >= 'a' then (c - 'a') as nat else 26 + (c - '0') as nat;
      AlphabetAt(i);
      assert ALPHABET[i] == c;
    }
    forall i | 0 <= i < |ALPHABET| ensures !NotToken(ALPHABET[i]) {
      AlphabetAt(i);
    }
  }

  lemma AlphabetAt(i: nat)
    requires i < 36
    ensures |ALPHABET| == 36
    ensures ALPHABET[i] == if i < 26 then 'a' + i as char else '0' + (i - 26) as char
  {
  }

  /** Tab to carriage return, the space, and the spaces and line separators beyond ASCII. */
  const WHITESPACE := "\t\U{000b}\U{000c}\n\r \U{00a0}\U{1680}\U{2028}\U{2029}\U{202f}\U{205f}\U{3000}\U{feff}"

  /** The en quad to the hair space. */
  const TYPOGRAPHIC_SPACES :=
    "\U{2000}\U{2001}\U{2002}\U{2003}\U{2004}\U{2005}\U{2006}\U{2007}\U{2008}\U{2009}\U{200a}"

  lemma WhitespaceCharacters(c: char)
    ensures IsWhitespace(c) <==> c in WHITESPACE || c in TYPOGRAPHIC_SPACES
  {
    assert WHITESPACE[0] == '\t' && WHITESPACE[1] == '\U{000b}' && WHITESPACE[2] == '\U{000c}';
    assert WHITESPACE[3] == '\n' && WHITESPACE[4] == '\r' && WHITESPACE[5] == ' ' && WHITESPACE[6] == '\U{00a0}';
    assert WHITESPACE[7] == '\U{1680}' && WHITESPACE[8] == '\U{2028}' && WHITESPACE[9] == '\U{2029}';
    assert WHITESPACE[10] == '\U{202f}' && WHITESPACE[11] == '\U{205f}' && WHITESPACE[12] == '\U{3000}';
    assert WHITESPACE[13] == '\U{feff}';
    if '\U{2000}' <= c <= '\U{200a}' {
      var i := (c - '\U{2000}') as nat;
      TypographicAt(i);
      assert TYPOGRAPHIC_SPACES[i] == c;
    }
    forall i | 0 <= i < |TYPOGRAPHIC_SPACES| ensures IsWhitespace(TYPOGRAPHIC_SPACES[i]) {
      TypographicAt(i);
    }
  }

  lemma TypographicAt(i: nat)
    requires i < 11
    ensures |TYPOGRAPHIC_SPACES| == 11 && TYPOGRAPHIC_SPACES[i] == '\U{2000}' + i as char
  {
  }

  /** What is assumed of the fold: plain characters stay as they are. */
  ghost predicate FixesPlain(fold: char -> string) {
    forall c :: !NotToken(c) || c == ' ' ==> fold(c) == [c]
  }

  function FoldAll(fold: char -> string, s: string): string {
    if s == "" then "" else fold(s[0]) + FoldAll(fold, s[1..])
  }

  function DropJunk(junk: char -> bool, s: string): (r: string)
    ensures |r| <= |s|
    ensures r != "" ==> !junk(r[0])
  {
    if s != "" && junk(s[0]) then DropJunk(junk, s[1..]) else s
  }

  /** `s.replace(/junk+/g, ' ')`: every maximal run of junk becomes one space. */
  function Squash(junk: char -> bool, s: string): string
    decreases |s|
  {
    if s == "" then ""
    else if junk(s[0]) then " " + Squash(junk, DropJunk(junk, s[1..]))
    else [s[0]] + Squash(junk, s[1..])
  }

  function TrimLeft(s: string): string {
    if s != "" && s[0] == ' ' then TrimLeft(s[1..]) else s
  }

  function TrimRight(s: string): string {
    if s != "" && s[|s| - 1] == ' ' then TrimRight(s[..|s| - 1]) else s
  }

  function Collapse(junk: char -> bool, s: string): string {
    TrimRight(TrimLeft(Squash(junk, s)))
  }

  /** `norm`. */
  function Norm(fold: char -> string, s: string): string {
    Collapse(NotToken, FoldAll(fold, s))
  }

  /** `String(a).replace(/\s+/g, ' ').trim()`. */
  function Clean(s: string): string {
    Collapse(IsWhitespace, s)
  }

  function CleanAll(addresses: seq<string>): seq<string> {
    seq(|addresses|, i requires 0 <= i < |addresses| => Clean(addresses[i]))
  }

  // ---- the reference view: a string as a list of tokens ----

  function TakeWord(junk: char -> bool, s: string): (w: string)
    ensures w <= s && (w != "" ==> Word(junk, w))
    ensures |w| < |s| ==> junk(s[|w|])
  {
    if s == "" || junk(s[0]) then "" else [s[0]] + TakeWord(junk, s[1..])
  }

  predicate Word(junk: char -> bool, w: string) {
    w != "" && forall i :: 0 <= i < |w| ==> !junk(w[i])
  }

  predicate Words(junk: char -> bool, ws: seq<string>) {
    forall i :: 0 <= i < |ws| ==> Word(junk, ws[i])
  }

  /** The maximal junk-free runs of `s`, left to right. */
  function Tokens(junk: char -> bool, s: string): (ws: seq<string>)
    ensures Words(junk, ws)
    decreases |s|
  {
    if s == "" then []
    else if junk(s[0]) then Tokens(junk, s[1..])
    else var w := TakeWord(junk, s); [w] + Tokens(junk, s[|w|..])
  }

  function Join(ws: seq<string>): string {
    if ws == [] then "" else if |ws| == 1 then ws[0] else ws[0] + " " + Join(ws[1..])
  }

  // ---- Collapse is Join of Tokens ----

  lemma {:induction false} TokensSkipJunk(junk: char -> bool, s: string)
    ensures Tokens(junk, DropJunk(junk, s)) == Tokens(junk, s)
  {
    if s != "" && junk(s[0]) {
      TokensSkipJunk(junk, s[1..]);
    }
  }

  lemma {:induction false} SquashWord(junk: char -> bool, s: string, w: string, rest: string)
    requires w == TakeWord(junk, s) && rest == s[|w|..]
    ensures Squash(junk, s) == w + Squash(junk, rest)
  {
    if s != "" && !junk(s[0]) {
      assert w[1..] == TakeWord(junk, s[1..]);
      SquashWord(junk, s[1..], w[1..], rest);
      AppendAssoc([s[0]], w[1..], Squash(junk, rest));
      assert w == [s[0]] + w[1..];
    }
  }

  lemma AppendAssoc(a: string, b: string, c: string)
    ensures a + (b + c) == a + b + c
  {
  }

  lemma {:induction false} TrimRightAppend(a: string, b: string)
    requires TrimRight(b) != ""
    ensures TrimRight(a + b) == a + TrimRight(b)
  {
    if b[|b| - 1] == ' ' {
      assert (a + b)[..|a + b| - 1] == a + b[..|b| - 1];
      TrimRightAppend(a, b[..|b| - 1]);
    }
  }

  lemma {:induction false} SquashFromWord(junk: char -> bool, s: string)
    requires junk(' ')
    requires s == "" || !junk(s[0])
    ensures TrimRight(Squash(junk, s)) == Join(Tokens(junk, s))
    ensures s != "" ==> Join(Tokens(junk, s)) != ""
    decreases |s|
  {
    if s != "" {
      var w := TakeWord(junk, s);
      var rest := s[|w|..];
      SquashWord(junk, s, w, rest);
      if rest == "" {
        assert w + "" == w;
      } else {
        SquashTail(junk, w, rest);
      }
    }
  }

  lemma {:induction false} SquashTail(junk: char -> bool, w: string, rest: string)
    requires junk(' ')
    requires Word(junk, w) && rest != "" && junk(rest[0])
    ensures TrimRight(w + Squash(junk, rest)) == Join([w] + Tokens(junk, rest))
    ensures Join([w] + Tokens(junk, rest)) != ""
    decreases |rest|
  {
    var t := DropJunk(junk, rest[1..]);
    TokensSkipJunk(junk, rest[1..]);
    SquashFromWord(junk, t);
    var q := Squash(junk, t);
    AppendAssoc(w, " ", q);
    if t == "" {
      assert w + " " + "" == w + " ";
      assert (w + " ")[..|w|] == w;
      assert w[|w| - 1] != ' ';
    } else {
      TrimRightAppend(w + " ", q);
      var ws := Tokens(junk, t);
      assert ([w] + ws)[1..] == ws;
    }
  }

  /** Collapsing keeps exactly the tokens, separated by single spaces. */
  lemma CollapseIsJoin(junk: char -> bool, s: string)
    requires junk(' ')
    ensures Collapse(junk, s) == Join(Tokens(junk, s))
  {
    var t := DropJunk(junk, s);
    TokensSkipJunk(junk, s);
    SquashFromWord(junk, t);
    var q := Squash(junk, t);
    assert TrimLeft(q) == q;
    if s != "" && junk(s[0]) {
      assert (" " + q)[1..] == q;
    }
  }

  // ---- a word list survives Join ----

  lemma {:induction false} TakeWordOf(junk: char -> bool, w: string, rest: string)
    requires forall i :: 0 <= i < |w| ==> !junk(w[i])
    requires rest == "" || junk(rest[0])
    ensures TakeWord(junk, w + rest) == w
  {
    if w == "" {
      assert w + rest == rest;
    } else {
      assert (w + rest)[1..] == w[1..] + rest;
      TakeWordOf(junk, w[1..], rest);
    }
  }

  lemma TokensOfWord(junk: char -> bool, w: string, rest: string)
    requires Word(junk, w)
    requires rest == "" || junk(rest[0])
    ensures Tokens(junk, w + rest) == [w] + Tokens(junk, rest)
  {
    TakeWordOf(junk, w, rest);
    assert (w + rest)[|w|..] == rest;
    assert (w + rest)[0] == w[0];
  }

  lemma {:induction false} TokensOfJoin(junk: char -> bool, ws: seq<string>)
    requires junk(' ')
    requires Words(junk, ws)
    ensures Tokens(junk, Join(ws)) == ws
  {
    if |ws| == 1 {
      TokensOfWord(junk, ws[0], "");
      assert ws[0] + "" == ws[0];
    } else if |ws| > 1 {
      var tail := Join(ws[1..]);
      TokensOfJoin(junk, ws[1..]);
      TokensOfWord(junk, ws[0], " " + tail);
      assert (" " + tail)[1..] == tail;
      assert ws[0] + " " + tail == ws[0] + (" " + tail);
    }
  }

  /** A normal string: tokens separated by single spaces, nothing else. */
  predicate Normal(s: string) {
    s == Join(Tokens(NotToken, s))
  }

  lemma NormIsNormal(fold: char -> string, s: string)
    ensures Normal(Norm(fold, s))
    ensures Tokens(NotToken, Norm(fold, s)) == Tokens(NotToken, FoldAll(fold, s))
  {
    CollapseIsJoin(NotToken, FoldAll(fold, s));
    TokensOfJoin(NotToken, Tokens(NotToken, FoldAll(fold, s)));
  }

  lemma {:induction false} JoinIsPlain(ws: seq<string>)
    requires Words(NotToken, ws)
    ensures forall i :: 0 <= i < |Join(ws)| ==> !NotToken(Join(ws)[i]) || Join(ws)[i] == ' '
    ensures ws != [] ==> Join(ws) != "" && !NotToken(Join(ws)[0]) && !NotToken(Join(ws)[|Join(ws)| - 1])
  {
    if |ws| > 1 {
      JoinIsPlain(ws[1..]);
    }
  }

  lemma {:induction false} FoldFixesPlain(fold: char -> string, s: string)
    requires FixesPlain(fold)
    requires forall i :: 0 <= i < |s| ==> !NotToken(s[i]) || s[i] == ' '
    ensures FoldAll(fold, s) == s
  {
    if s != "" {
      FoldFixesPlain(fold, s[1..]);
    }
  }

  /** `norm` fixes every normal string. */
  /** A normalised string: letters a to z and digits, single spaces between them, none at the ends. */
  lemma NormAlphabet(fold: char -> string, s: string)
    ensures var n := Norm(fold, s);
            && (forall i :: 0 <= i < |n| ==> n[i] == ' ' || n[i] in ALPHABET)
            && (n != "" ==> n[0] != ' ' && n[|n| - 1] != ' ')
  {
    NormIsNormal(fold, s);
    var n := Norm(fold, s);
    JoinIsPlain(Tokens(NotToken, n));
    forall i | 0 <= i < |n| ensures n[i] == ' ' || n[i] in ALPHABET {
      TokenCharacters(n[i]);
    }
  }

  lemma NormFixesNormal(fold: char -> string, s: string)
    requires FixesPlain(fold) && Normal(s)
    ensures Norm(fold, s) == s
  {
    JoinIsPlain(Tokens(NotToken, s));
    FoldFixesPlain(fold, s);
    CollapseIsJoin(NotToken, s);
  }

  /** `norm` is idempotent. */
  lemma NormIdempotent(fold: char -> string, s: string)
    requires FixesPlain(fold)
    ensures Norm(fold, Norm(fold, s)) == Norm(fold, s)
  {
    NormIsNormal(fold, s);
    NormFixesNormal(fold, Norm(fold, s));
  }

  // ---- phrases ----

  /** `key` occurs at position `i` between token boundaries, as `(^| )key( |$)` asks. */
  predicate PhraseAt(hay: string, key: string, i: nat) {
    && i + |key| <= |hay|
    && hay[i..i + |key|] == key
    && (i == 0 || hay[i - 1] == ' ')
    && (i + |key| == |hay| || hay[i + |key|] == ' ')
  }

  /** `containsPhrase`. */
  predicate ContainsPhrase(hay: string, key: string) {
    key != "" && exists i :: 0 <= i <= |hay| && PhraseAt(hay, key, i)
  }

  predicate SublistAt(h: seq<string>, k: seq<string>, i: nat) {
    i + |k| <= |h| && h[i..i + |k|] == k
  }

  predicate Sublist(h: seq<string>, k: seq<string>) {
    exists i :: 0 <= i <= |h| && SublistAt(h, k, i)
  }

  /** Tokens of a concatenation that does not cut a word in two. */
  lemma {:induction false} TokensConcat(junk: char -> bool, x: string, y: string)
    requires x == "" || y == "" || junk(x[|x| - 1]) || junk(y[0])
    ensures Tokens(junk, x + y) == Tokens(junk, x) + Tokens(junk, y)
    decreases |x|
  {
    if x == "" {
      assert x + y == y;
    } else if junk(x[0]) {
      assert (x + y)[1..] == x[1..] + y;
      TokensConcat(junk, x[1..], y);
    } else {
      var w := TakeWord(junk, x);
      var rest := x[|w|..];
      TokensConcat(junk, rest, y);
      assert x == w + rest;
      AppendAssoc(w, rest, y);
      WordThenRest(junk, w, rest, y);
    }
  }

  lemma ConsConcat(w: string, a: seq<string>, b: seq<string>)
    ensures [w] + (a + b) == [w] + a + b
  {
  }

  lemma WordThenRest(junk: char -> bool, w: string, rest: string, y: string)
    requires Word(junk, w)
    requires rest == "" || junk(rest[0])
    requires rest == "" ==> y == "" || junk(y[0])
    requires Tokens(junk, rest + y) == Tokens(junk, rest) + Tokens(junk, y)
    ensures Tokens(junk, w + (rest + y)) == Tokens(junk, w + rest) + Tokens(junk, y)
  {
    assert rest + y == "" || junk((rest + y)[0]) by {
      if rest == "" {
        assert rest + y == y;
      }
    }
    TokensOfWord(junk, w, rest + y);
    TokensOfWord(junk, w, rest);
    ConsConcat(w, Tokens(junk, rest), Tokens(junk, y));
  }

  lemma {:induction false} JoinConcat(a: seq<string>, b: seq<string>)
    requires a != [] && b != []
    ensures Join(a + b) == Join(a) + " " + Join(b)
  {
    if |a| == 1 {
      assert (a + b)[1..] == b;
    } else {
      assert (a + b)[1..] == a[1..] + b;
      JoinConcat(a[1..], b);
      assert a[0] + " " + (Join(a[1..]) + " " + Join(b)) == a[0] + " " + Join(a[1..]) + " " + Join(b);
    }
  }

  lemma PhraseToSublist(hay: string, key: string)
    requires ContainsPhrase(hay, key)
    ensures Sublist(Tokens(NotToken, hay), Tokens(NotToken, key))
  {
    var i :| 0 <= i <= |hay| && PhraseAt(hay, key, i);
    var a, b := hay[..i], hay[i + |key|..];
    assert hay == a + (key + b);
    TokensAround(a, key, b);
  }

  lemma TokensAround(a: string, key: string, b: string)
    requires a == "" || a[|a| - 1] == ' '
    requires b == "" || b[0] == ' '
    ensures Sublist(Tokens(NotToken, a + (key + b)), Tokens(NotToken, key))
  {
    TokensConcat(NotToken, key, b);
    TokensConcat(NotToken, a, key + b);
    MiddleSublist(Tokens(NotToken, a), Tokens(NotToken, key), Tokens(NotToken, b));
  }

  lemma MiddleSublist(before: seq<string>, k: seq<string>, after: seq<string>)
    ensures Sublist(before + (k + after), k)
  {
    assert SublistAt(before + (k + after), k, |before|);
  }

  /** A piece between two space-bounded sides is a phrase of the whole. */
  lemma PhraseBetween(left: string, key: string, right: string)
    requires left == "" || left[|left| - 1] == ' '
    requires right == "" || right[0] == ' '
    ensures PhraseAt(left + (key + right), key, |left|)
  {
    assert (left + (key + right))[|left|..|left| + |key|] == key;
  }

  /** Joining `k` and `b` puts `Join(k)` in front of nothing or of a space. */
  lemma JoinRight(k: seq<string>, b: seq<string>) returns (right: string)
    requires k != []
    ensures Join(k + b) == Join(k) + right && (right == "" || right[0] == ' ')
  {
    if b == [] {
      right := "";
      assert k + b == k;
      assert Join(k) + "" == Join(k);
    } else {
      right := " " + Join(b);
      JoinConcat(k, b);
      assert Join(k) + " " + Join(b) == Join(k) + right;
    }
  }

  lemma JoinLeft(a: seq<string>, rest: seq<string>) returns (left: string)
    requires rest != []
    ensures Join(a + rest) == left + Join(rest) && (left == "" || left[|left| - 1] == ' ')
  {
    if a == [] {
      left := "";
      assert a + rest == rest;
      assert "" + Join(rest) == Join(rest);
    } else {
      left := Join(a) + " ";
      JoinConcat(a, rest);
    }
  }

  /** Joining `a`, `k`, `b` puts `Join(k)` between token boundaries. */
  lemma JoinedPhrase(a: seq<string>, k: seq<string>, b: seq<string>) returns (i: nat)
    requires k != []
    ensures PhraseAt(Join(a + k + b), Join(k), i)
  {
    hide Join, PhraseAt;
    var right := JoinRight(k, b);
    var left := JoinLeft(a, k + b);
    assert a + k + b == a + (k + b);
    PhraseBetween(left, Join(k), right);
    i := |left|;
  }

  lemma SublistToPhrase(hay: string, key: string)
    requires Normal(hay) && Normal(key) && key != ""
    requires Sublist(Tokens(NotToken, hay), Tokens(NotToken, key))
    ensures ContainsPhrase(hay, key)
  {
    var h, k := Tokens(NotToken, hay), Tokens(NotToken, key);
    var j :| 0 <= j <= |h| && SublistAt(h, k, j);
    assert h == h[..j] + k + h[j + |k|..];
    var i := JoinedPhrase(h[..j], k, h[j + |k|..]);
    assert PhraseAt(hay, key, i);
  }

  /** On normalised strings the regular expression asks for a contiguous sublist of tokens. */
  lemma PhraseIsTokenSublist(hay: string, key: string)
    requires Normal(hay) && Normal(key)
    ensures ContainsPhrase(hay, key) <==>
            key != "" && Sublist(Tokens(NotToken, hay), Tokens(NotToken, key))
  {
    if ContainsPhrase(hay, key) {
      PhraseToSublist(hay, key);
    }
    if key != "" && Sublist(Tokens(NotToken, hay), Tokens(NotToken, key)) {
      SublistToPhrase(hay, key);
    }
  }

  // ---- prefix stripping ----

  /** `n.replace(/^(p1|p2|...)\s+/, '')`. */
  function Strip(n: string, prefixes: seq<string>): string {
    if prefixes == [] then n
    else if prefixes[0] + " " <= n then TrimLeft(n[|prefixes[0]|..])
    else Strip(n, prefixes[1..])
  }

  lemma {:induction false} TrimLeftKeepsEnd(s: string)
    requires s != "" && s[|s| - 1] != ' '
    ensures TrimLeft(s) != ""
  {
    if s[0] == ' ' {
      TrimLeftKeepsEnd(s[1..]);
    }
  }

  /** Stripping never empties a non-empty normal string, and an empty one stays empty. */
  lemma {:induction false} StripEmpty(n: string, prefixes: seq<string>)
    requires Normal(n)
    ensures Strip(n, prefixes) == "" <==> n == ""
  {
    JoinIsPlain(Tokens(NotToken, n));
    if prefixes != [] {
      if prefixes[0] + " " <= n {
        var rest := n[|prefixes[0]|..];
        assert rest != "" && rest[|rest| - 1] == n[|n| - 1];
        TrimLeftKeepsEnd(rest);
      } else {
        StripEmpty(n, prefixes[1..]);
      }
    }
  }

  lemma {:induction false} TrimLeftFixes(s: string)
    requires s == "" || s[0] != ' '
    ensures TrimLeft(s) == s && TrimLeft(" " + s) == s
  {
    assert (" " + s)[1..] == s;
  }

  /** A normal string that starts with the normal prefix `p` and a space: the tokens of `p`, then the rest. */
  lemma SplitAtPrefix(n: string, p: string) returns (rest: string)
    requires Normal(n) && Normal(p) && p != "" && p + " " <= n
    ensures n == p + (" " + rest) && rest != ""
    ensures Tokens(NotToken, n) == Tokens(NotToken, p) + Tokens(NotToken, rest)
  {
    rest := n[|p| + 1..];
    JoinIsPlain(Tokens(NotToken, n));
    assert rest != "";
    assert n == p + (" " + rest);
    TokensConcat(NotToken, p, " " + rest);
    assert (" " + rest)[1..] == rest;
  }

  /** ... and the rest is normal and does not start with a space. */
  lemma RestIsNormal(n: string, p: string, rest: string)
    requires Normal(n) && Normal(p) && p != "" && rest != ""
    requires n == p + (" " + rest)
    requires Tokens(NotToken, n) == Tokens(NotToken, p) + Tokens(NotToken, rest)
    ensures rest == Join(Tokens(NotToken, rest)) && rest[0] != ' '
  {
    hide Tokens;
    var ps, rs := Tokens(NotToken, p), Tokens(NotToken, rest);
    assert ps + [] == ps;
    JoinConcat(ps, rs);
    assert p + " " + rest == n == p + " " + Join(rs);
    assert rest == n[|p| + 1..] == Join(rs);
    JoinIsPlain(rs);
  }

  /** Stripping a normal string drops whole leading tokens: the result is again normal. */
  lemma {:induction false} StripDropsTokens(n: string, prefixes: seq<string>) returns (m: nat)
    requires Normal(n)
    requires forall i :: 0 <= i < |prefixes| ==> Normal(prefixes[i]) && prefixes[i] != ""
    ensures m <= |Tokens(NotToken, n)|
    ensures Strip(n, prefixes) == Join(Tokens(NotToken, n)[m..])
    ensures Normal(Strip(n, prefixes))
  {
    hide Tokens, Join;
    if prefixes == [] {
      m := 0;
      assert Tokens(NotToken, n)[0..] == Tokens(NotToken, n);
    } else if prefixes[0] + " " <= n {
      var p := prefixes[0];
      var rest := SplitAtPrefix(n, p);
      RestIsNormal(n, p, rest);
      m := |Tokens(NotToken, p)|;
      assert Tokens(NotToken, n)[m..] == Tokens(NotToken, rest);
      assert n[|p|..] == " " + rest;
      TrimLeftFixes(rest);
    } else {
      m := StripDropsTokens(n, prefixes[1..]);
    }
  }
}
