/** String helpers behind the round splitter: the delimiter split, the
    whitespace trim, the empty-token filter, ASCII lower-casing and the
    substring test used by the link rules. */
module Text {

  /** The characters JavaScript's `String.prototype.trim` removes: the
      ECMAScript WhiteSpace and LineTerminator code points. */
  predicate IsWhitespace(c: char) {
    var n := c as int;
    n == 0x09 || n == 0x0A || n == 0x0B || n == 0x0C || n == 0x0D || n == 0x20
    || n == 0xA0 || n == 0x1680 || (0x2000 <= n <= 0x200A) || n == 0x2028
    || n == 0x2029 || n == 0x202F || n == 0x205F || n == 0x3000 || n == 0xFEFF
  }

  /** The two separators of the `/[|,]/` split. */
  predicate IsDelimiter(c: char) {
    c == '|' || c == ','
  }

  /** Contains neither separator. */
  predicate DelimiterFree(s: string) {
    '|' !in s && ',' !in s
  }

  /** Non-empty, with whitespace at neither end. */
  predicate Trimmed(t: string) {
    t != [] && !IsWhitespace(t[0]) && !IsWhitespace(t[|t| - 1])
  }


  // ---------------------------------------------------------------------
  // Trimming

  /** `trimStart()`: drops leading whitespace. */
  function TrimStart(s: string): string {
    if s != [] && IsWhitespace(s[0]) then TrimStart(s[1..]) else s
  }

  /** `trimEnd()`: drops trailing whitespace. */
  function TrimEnd(s: string): string {
    if s != [] && IsWhitespace(s[|s| - 1]) then TrimEnd(s[..|s| - 1]) else s
  }

  /** How many whitespace characters `trim()` cuts from the front of `s`. */
  function Lead(s: string): nat {
    if s != [] && IsWhitespace(s[0]) then 1 + Lead(s[1..]) else 0
  }

  /** `trimStart` keeps the suffix after the leading whitespace, which
      starts with a non-whitespace character when it is not empty. */
  lemma {:induction false} TrimStartMeaning(s: string)
    ensures Lead(s) <= |s| && TrimStart(s) == s[Lead(s)..]
    ensures forall i :: 0 <= i < Lead(s) ==> IsWhitespace(s[i])
    ensures TrimStart(s) != [] ==> !IsWhitespace(TrimStart(s)[0])
  {
    if s != [] && IsWhitespace(s[0]) {
      TrimStartMeaning(s[1..]);
      assert forall i :: 1 <= i < Lead(s) ==> s[i] == s[1..][i - 1];
      assert s[1..][Lead(s[1..])..] == s[Lead(s)..];
    }
  }

  /** `trimEnd` keeps the prefix before the trailing whitespace, which ends
      with a non-whitespace character when it is not empty. */
  lemma {:induction false} TrimEndMeaning(s: string)
    ensures |TrimEnd(s)| <= |s| && TrimEnd(s) == s[..|TrimEnd(s)|]
    ensures forall i :: |TrimEnd(s)| <= i < |s| ==> IsWhitespace(s[i])
    ensures TrimEnd(s) != [] ==> !IsWhitespace(TrimEnd(s)[|TrimEnd(s)| - 1])
  {
    if s != [] && IsWhitespace(s[|s| - 1]) {
      var p := s[..|s| - 1];
      TrimEndMeaning(p);
      var r := TrimEnd(p);
      assert forall i :: |r| <= i < |s| - 1 ==> s[i] == p[i];
      assert p[..|r|] == s[..|r|];
    }
  }

  /** `trim()`. */
  function Trim(s: string): string {
    TrimEnd(TrimStart(s))
  }

  /** The trimmed text is the slice of `s` starting at `Lead(s)` that is left
      once the whitespace at both ends is cut away, and it has whitespace at
      neither end. */
  lemma TrimMeaning(s: string)
    ensures Trim(s) != [] ==> !IsWhitespace(Trim(s)[0]) && !IsWhitespace(Trim(s)[|Trim(s)| - 1])
    ensures Lead(s) + |Trim(s)| <= |s| && Trim(s) == s[Lead(s)..Lead(s) + |Trim(s)|]
    ensures forall k :: 0 <= k < Lead(s) ==> IsWhitespace(s[k])
    ensures forall k :: Lead(s) + |Trim(s)| <= k < |s| ==> IsWhitespace(s[k])
  {
    TrimStartMeaning(s);
    var t := TrimStart(s);
    TrimEndMeaning(t);
    var r := TrimEnd(t);
    var i := Lead(s);
    assert r == t[..|r|] && t == s[i..];
    assert r == s[i..i + |r|];
    assert forall k :: i + |r| <= k < |s| ==> s[k] == t[k - i];
  }

  lemma TrimKeepsDelimiterFree(s: string)
    ensures DelimiterFree(s) ==> DelimiterFree(Trim(s))
  {
    TrimMeaning(s);
    var r := Trim(s);
    var i := Lead(s);
    assert forall k :: 0 <= k < |r| ==> r[k] == s[i + k];
  }

  // ---------------------------------------------------------------------
  // Splitting on | and ,

  /** `s.split(/[|,]/)`: the pieces between separators, in order, including
      the empty ones (so there is always at least one piece). */
  function Segments(s: string): (r: seq<string>)
    ensures |r| >= 1
  {
    if s == [] then [[]]
    else
      var rest := Segments(s[1..]);
      if IsDelimiter(s[0]) then [[]] + rest
      else [[s[0]] + rest[0]] + rest[1..]
  }

  /** No piece holds a separator. */
  lemma {:induction false} SegmentsDelimiterFree(s: string)
    ensures AllDelimiterFree(Segments(s))
  {
    if s != [] {
      SegmentsDelimiterFree(s[1..]);
      var rest := Segments(s[1..]);
      if !IsDelimiter(s[0]) {
        assert forall k :: 1 <= k < |rest| ==> Segments(s)[k] == rest[k];
        assert DelimiterFree([s[0]] + rest[0]) by {
          assert DelimiterFree(rest[0]);
        }
      }
    }
  }

  /** The separator characters of `s`, in order. */
  function Delimiters(s: string): (r: string)
    ensures forall k :: 0 <= k < |r| ==> IsDelimiter(r[k])
  {
    if s == [] then []
    else if IsDelimiter(s[0]) then [s[0]] + Delimiters(s[1..])
    else Delimiters(s[1..])
  }

  /** Puts pieces back together with the given separators between them. */
  function Join(pieces: seq<string>, seps: string): string
    requires |pieces| == |seps| + 1
  {
    if seps == [] then pieces[0]
    else pieces[0] + [seps[0]] + Join(pieces[1..], seps[1..])
  }

  /** The split loses nothing: there is one more piece than separators, and
      joining the pieces with the separators gives back the input. */
  lemma {:induction false} SplitJoin(s: string)
    ensures |Segments(s)| == |Delimiters(s)| + 1
    ensures Join(Segments(s), Delimiters(s)) == s
  {
    if s != [] {
      SplitJoin(s[1..]);
      var rest := Segments(s[1..]);
      var seps := Delimiters(s[1..]);
      if IsDelimiter(s[0]) {
        assert Segments(s) == [[]] + rest;
        assert Join(Segments(s), Delimiters(s)) == [] + [s[0]] + Join(rest, seps);
        assert s == [s[0]] + s[1..];
      } else if seps == [] {
        assert Join(Segments(s), Delimiters(s)) == [s[0]] + rest[0];
        assert s == [s[0]] + s[1..];
      } else {
        assert Join(rest, seps) == rest[0] + [seps[0]] + Join(rest[1..], seps[1..]);
        assert Segments(s)[1..] == rest[1..];
        assert Join(Segments(s), Delimiters(s))
            == ([s[0]] + rest[0]) + [seps[0]] + Join(rest[1..], seps[1..]);
        assert s == [s[0]] + s[1..];
      }
    }
  }

  lemma {:induction false} SegmentsOfDelimiterFree(s: string)
    requires DelimiterFree(s)
    ensures Segments(s) == [s]
  {
    if s != [] {
      assert DelimiterFree(s[1..]) by {
        assert forall i :: 0 <= i < |s| - 1 ==> s[1..][i] == s[i + 1];
      }
      SegmentsOfDelimiterFree(s[1..]);
      assert s == [s[0]] + s[1..];
    }
  }

  /** A separator splits the pieces of what is before it from those after. */
  lemma {:induction false} SegmentsAppend(a: string, d: char, b: string)
    requires IsDelimiter(d)
    ensures Segments(a + [d] + b) == Segments(a) + Segments(b)
  {
    if a == [] {
      assert a + [d] + b == [d] + b;
      assert ([d] + b)[1..] == b;
    } else {
      assert (a + [d] + b)[1..] == a[1..] + [d] + b;
      SegmentsAppend(a[1..], d, b);
    }
  }

  // ---------------------------------------------------------------------
  // Tokenizing

  predicate AllDelimiterFree(pieces: seq<string>) {
    forall k :: 0 <= k < |pieces| ==> DelimiterFree(pieces[k])
  }

  /** One piece after `.map(r => r.trim()).filter(r => r.length > 0)`:
      its trimmed self, or nothing when that is empty. */
  function CleanPiece(piece: string): seq<string> {
    var t := Trim(piece);
    if t == [] then [] else [t]
  }

  /** `.map(r => r.trim()).filter(r => r.length > 0)` over all pieces. */
  function Clean(pieces: seq<string>): seq<string> {
    if pieces == [] then [] else CleanPiece(pieces[0]) + Clean(pieces[1..])
  }

  /** What the filter keeps is trimmed and non-empty, and it brings in no
      separator. */
  lemma {:induction false} CleanKeepsClean(pieces: seq<string>)
    ensures forall k :: 0 <= k < |Clean(pieces)| ==> Trimmed(Clean(pieces)[k])
    ensures AllDelimiterFree(pieces) ==> AllDelimiterFree(Clean(pieces))
  {
    if pieces != [] {
      CleanKeepsClean(pieces[1..]);
      TrimMeaning(pieces[0]);
      TrimKeepsDelimiterFree(pieces[0]);
      var head, rest := CleanPiece(pieces[0]), Clean(pieces[1..]);
      assert forall k :: 0 <= k < |rest| ==> (head + rest)[|head| + k] == rest[k];
      if AllDelimiterFree(pieces) {
        assert DelimiterFree(pieces[0]);
        assert forall k :: 0 <= k < |pieces| - 1 ==> pieces[1..][k] == pieces[k + 1];
      }
    }
  }

  lemma {:induction false} CleanAppend(x: seq<string>, y: seq<string>)
    ensures Clean(x + y) == Clean(x) + Clean(y)
  {
    if x == [] {
      assert x + y == y;
    } else {
      calc {
        Clean(x + y);
        { assert (x + y)[0] == x[0] && (x + y)[1..] == x[1..] + y; }
        CleanPiece(x[0]) + Clean(x[1..] + y);
        { CleanAppend(x[1..], y); }
        CleanPiece(x[0]) + (Clean(x[1..]) + Clean(y));
        Clean(x) + Clean(y);
      }
    }
  }

  /** The round list of one master record:
      `roundsRaw.split(/[|,]/).map(r => r.trim()).filter(r => r.length > 0)`. */
  function Tokenize(s: string): seq<string> {
    Clean(Segments(s))
  }

  /** Every token is non-empty, has no whitespace at either end and
      contains neither separator. */
  lemma TokensAreClean(s: string)
    ensures forall k :: 0 <= k < |Tokenize(s)| ==> Trimmed(Tokenize(s)[k])
    ensures AllDelimiterFree(Tokenize(s))
  {
    SegmentsDelimiterFree(s);
    CleanKeepsClean(Segments(s));
  }

  /** Tokens keep their left-to-right order: a separator splits the token
      list of the text before it from that of the text after it. */
  lemma TokenizeAppend(a: string, d: char, b: string)
    requires IsDelimiter(d)
    ensures Tokenize(a + [d] + b) == Tokenize(a) + Tokenize(b)
  {
    SegmentsAppend(a, d, b);
    CleanAppend(Segments(a), Segments(b));
  }

  /** Text without a separator is one token, its trimmed self, or none when
      it is all whitespace. With TokenizeAppend this determines Tokenize. */
  lemma TokenizeSingle(s: string)
    requires DelimiterFree(s)
    ensures Tokenize(s) == if Trim(s) == [] then [] else [Trim(s)]
  {
    SegmentsOfDelimiterFree(s);
    assert Clean([s]) == CleanPiece(s) + Clean([]);
  }

  predicate AllWhitespace(w: string) {
    forall i :: 0 <= i < |w| ==> IsWhitespace(w[i])
  }

  /** Trimming cuts exactly the whitespace padding around a trimmed text. */
  lemma TrimPadded(l: string, t: string, r: string)
    requires AllWhitespace(l) && Trimmed(t) && AllWhitespace(r)
    ensures Trim(l + t + r) == t
  {
    var x := l + t + r;
    TrimMeaning(x);
    assert x[|l|] == t[0] && x[|l| + |t| - 1] == t[|t| - 1];
    assert x[|l|..|l| + |t|] == t;
  }

  /** Trimming a text of whitespace leaves nothing. */
  lemma TrimBlank(w: string)
    requires AllWhitespace(w)
    ensures Trim(w) == []
  {
    TrimMeaning(w);
  }

  /** A padded round with no separator is one token. */
  lemma TokenizeOne(l: string, t: string, r: string)
    requires AllWhitespace(l) && Trimmed(t) && AllWhitespace(r)
    requires DelimiterFree(l) && DelimiterFree(t) && DelimiterFree(r)
    ensures Tokenize(l + t + r) == [t]
  {
    TrimPadded(l, t, r);
    TokenizeSingle(l + t + r);
  }

  /** Whitespace alone is no token. */
  lemma TokenizeNone(w: string)
    requires AllWhitespace(w) && DelimiterFree(w)
    ensures Tokenize(w) == []
  {
    TrimBlank(w);
    TokenizeSingle(w);
  }

  /** Two example rounds written `A | B, `: the separators split, the spaces go, the empty piece after the comma is
      dropped, and the order is kept. */
  lemma TokenizeTwo(first: string, second: string)
    requires Trimmed(first) && DelimiterFree(first)
    requires Trimmed(second) && DelimiterFree(second)
    ensures Tokenize(first + " | " + second + ", ") == [first, second]
  {
    var a, rest := first + " ", " " + second + ", ";
    assert first + " | " + second + ", " == a + ['|'] + rest;
    TokenizeAppend(a, '|', rest);
    TokenizeOnePadded(first, " ");
    TokenizeLast(second);
  }

  lemma TokenizeOnePadded(t: string, r: string)
    requires Trimmed(t) && DelimiterFree(t) && AllWhitespace(r) && DelimiterFree(r)
    ensures Tokenize(t + r) == [t]
  {
    assert t + r == [] + t + r;
    TokenizeOne([], t, r);
  }

  lemma TokenizeLast(t: string)
    requires Trimmed(t) && DelimiterFree(t)
    ensures Tokenize(" " + t + ", ") == [t]
  {
    var b := " " + t + [];
    assert " " + t + ", " == b + [','] + " ";
    TokenizeAppend(b, ',', " ");
    TokenizeOne(" ", t, []);
    TokenizeNone(" ");
  }

  /** The rounds "HR | Tech" of the script's header, with a trailing comma. */
  lemma TokenizeExample()
    ensures Tokenize("HR | Tech, ") == ["HR", "Tech"]
  {
    assert "HR | Tech, " == "HR" + " | " + "Tech" + ", ";
    TokenizeTwo("HR", "Tech");
  }

  /** A repeated round is kept twice: nothing removes duplicates. */
  lemma TokenizeKeepsDuplicates(round: string)
    requires Trimmed(round) && DelimiterFree(round)
    ensures Tokenize(round + ", " + round) == [round, round]
  {
    var b := " " + round + [];
    assert round + ", " + round == round + [','] + b;
    TokenizeAppend(round, ',', b);
    TokenizeToken(round);
    TokenizeOne(" ", round, []);
  }

  /** A trimmed round alone is its own single token. */
  lemma TokenizeToken(t: string)
    requires Trimmed(t) && DelimiterFree(t)
    ensures Tokenize(t) == [t]
  {
    TrimPadded([], t, []);
    assert [] + t + [] == t;
    TokenizeSingle(t);
  }

  /** Separators and spaces alone give no token at all. */
  lemma TokenizeBlank(w: string)
    requires AllWhitespace(w) && DelimiterFree(w)
    ensures Tokenize(w + "|" + w + "," + w) == []
  {
    assert w + "|" + w + "," + w == w + ['|'] + (w + [','] + w);
    TokenizeAppend(w, '|', w + [','] + w);
    TokenizeAppend(w, ',', w);
    TrimBlank(w);
    TokenizeSingle(w);
  }

  // ---------------------------------------------------------------------
  // Lower-casing and substring search

  /** `toLowerCase()` on the ASCII letters; every other character is kept. */
  function LowerChar(c: char): char {
    if 'A' <= c <= 'Z' then (c as int + 32) as char else c
  }

  function ToLower(s: string): string {
    seq(|s|, i requires 0 <= i < |s| => LowerChar(s[i]))
  }

  /** Lower-casing keeps the length and works character by character: it
      leaves no ASCII capital behind, and a second pass changes nothing. */
  lemma ToLowerMeaning(s: string)
    ensures |ToLower(s)| == |s|
    ensures forall i :: 0 <= i < |s| ==> ToLower(s)[i] == LowerChar(s[i])
    ensures forall i :: 0 <= i < |s| ==> !('A' <= ToLower(s)[i] <= 'Z')
    ensures ToLower(ToLower(s)) == ToLower(s)
  {
    assert forall i :: 0 <= i < |s| ==> ToLower(ToLower(s))[i] == ToLower(s)[i];
  }

  predicate OccursAt(s: string, p: string, i: nat) {
    i + |p| <= |s| && s[i..i + |p|] == p
  }

  lemma OccursShift(s: string, p: string)
    requires s != []
    ensures forall i: nat :: OccursAt(s[1..], p, i) ==> OccursAt(s, p, i + 1)
    ensures forall i: nat :: OccursAt(s, p, i) && i > 0 ==> OccursAt(s[1..], p, i - 1)
  {
    forall i: nat | OccursAt(s[1..], p, i)
      ensures OccursAt(s, p, i + 1)
    {
      assert s[1..][i..i + |p|] == s[i + 1..i + 1 + |p|];
    }
    forall i: nat | OccursAt(s, p, i) && i > 0
      ensures OccursAt(s[1..], p, i - 1)
    {
      assert s[1..][i - 1..i - 1 + |p|] == s[i..i + |p|];
    }
  }

  /** `s.includes(p)`: `p` is a prefix of `s` or of one of its suffixes. */
  function Contains(s: string, p: string): bool {
    p <= s || (s != [] && Contains(s[1..], p))
  }

  /** Contains holds exactly when `p` occurs at some position of `s`. */
  lemma {:induction false} ContainsMeaning(s: string, p: string)
    ensures Contains(s, p) <==> exists i: nat :: OccursAt(s, p, i)
  {
    if p <= s {
      assert OccursAt(s, p, 0);
    } else if s == [] {
      assert forall i: nat :: !OccursAt(s, p, i);
    } else {
      OccursShift(s, p);
      ContainsMeaning(s[1..], p);
      assert !OccursAt(s, p, 0);
    }
  }
}
