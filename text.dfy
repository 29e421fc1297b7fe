/**
 * The JavaScript string built-ins the normalisers are made of: `trim`, `split`
 * on a one-character separator, `join`, `toLowerCase`, deleting every match of
 * a one-character pattern (`replace(/x/g, '')`), and replacing every literal
 * occurrence of a pattern (`replace(/pattern/g, value)`).  Strings are
 * sequences of Unicode scalar values.
 */
module Text {

  /** The characters JavaScript's `trim` removes and `\s` matches
    * (WhiteSpace and LineTerminator of ECMAScript). */
  predicate IsWhitespace(c: char) {
    || c == '\t' || c == '\n' || c == '\U{000B}' || c == '\U{000C}' || c == '\r'
    || c == ' ' || c == '\U{00A0}' || c == '\U{1680}'
    || ('\U{2000}' <= c <= '\U{200A}')
    || c == '\U{2028}' || c == '\U{2029}' || c == '\U{202F}' || c == '\U{205F}'
    || c == '\U{3000}' || c == '\U{FEFF}'
  }

  // ---------------------------------------------------------------- trim

  /** Drops leading whitespace: what is left is a suffix of `s` that starts
    * with a non-whitespace character, and everything cut off was whitespace. */
  function TrimStart(s: string): (r: string)
    ensures |r| <= |s| && r == s[|s| - |r|..]
    ensures forall i :: 0 <= i < |s| - |r| ==> IsWhitespace(s[i])
    ensures r == [] || !IsWhitespace(r[0])
  {
    if |s| > 0 && IsWhitespace(s[0]) then TrimStart(s[1..]) else s
  }

  /** Drops trailing whitespace: what is left is a prefix of `s` that ends
    * with a non-whitespace character, and everything cut off was whitespace. */
  function TrimEnd(s: string): (r: string)
    ensures |r| <= |s| && r == s[..|r|]
    ensures forall i :: |r| <= i < |s| ==> IsWhitespace(s[i])
    ensures r == [] || !IsWhitespace(r[|r| - 1])
  {
    if |s| > 0 && IsWhitespace(s[|s| - 1]) then TrimEnd(s[..|s| - 1]) else s
  }

  /** `String.prototype.trim`. */
  function Trim(s: string): (r: string)
    ensures |r| <= |s|
    ensures r == [] || (!IsWhitespace(r[0]) && !IsWhitespace(r[|r| - 1]))
  {
    TrimEnd(TrimStart(s))
  }

  predicate Trimmed(s: string) {
    s == [] || (!IsWhitespace(s[0]) && !IsWhitespace(s[|s| - 1]))
  }

  /** A string with no whitespace at either end is its own trim; so `Trim`
    * is idempotent. */
  lemma TrimKeepsTrimmed(s: string)
    requires Trimmed(s)
    ensures Trim(s) == s
  {
  }

  /** `trim` leaves nothing exactly when the string is all whitespace. */
  lemma TrimBlank(s: string)
    ensures Trim(s) == [] <==> forall i :: 0 <= i < |s| ==> IsWhitespace(s[i])
  {
    var t := TrimStart(s);
    if t != [] {
      assert !IsWhitespace(s[|s| - |t|]);
    }
  }

  /** `trim` adds no character. */
  lemma TrimAvoids(s: string, c: char)
    requires c !in s
    ensures c !in Trim(s)
  {
    var t := TrimStart(s);
    assert forall i :: 0 <= i < |t| ==> t[i] == s[|s| - |t| + i];
    var r := TrimEnd(t);
    assert forall i :: 0 <= i < |r| ==> r[i] == t[i];
  }

  /** Whitespace in front of a trimmed string is all that `trim` removes. */
  lemma {:induction false} TrimAfterWhitespace(w: string, s: string)
    requires forall i :: 0 <= i < |w| ==> IsWhitespace(w[i])
    requires Trimmed(s)
    ensures Trim(w + s) == s
  {
    if w == [] {
      assert w + s == s;
    } else {
      assert (w + s)[1..] == w[1..] + s;
      TrimAfterWhitespace(w[1..], s);
    }
  }

  // ---------------------------------------------------------------- split and join

  /** `s.split(d)` for a one-character separator `d`: the pieces between
    * separators, at least one, none containing `d`. */
  function Split(s: string, d: char): (r: seq<string>)
    ensures |r| >= 1
    ensures forall i :: 0 <= i < |r| ==> d !in r[i]
  {
    if s == [] then [[]]
    else
      var rest := Split(s[1..], d);
      if s[0] == d then [[]] + rest
      else [[s[0]] + rest[0]] + rest[1..]
  }

  /** `parts.join(d)`: the text begins with the first part, followed by the
    * separator when more parts follow. */
  function Join(parts: seq<string>, d: char): (r: string)
    ensures parts != [] ==> |parts[0]| <= |r| && r[..|parts[0]|] == parts[0]
    ensures |parts| >= 2 ==> |parts[0]| < |r| && r[|parts[0]|] == d
  {
    if |parts| == 0 then []
    else if |parts| == 1 then parts[0]
    else parts[0] + [d] + Join(parts[1..], d)
  }

  /** Joining the pieces again gives back the string that was split. */
  lemma {:induction false} JoinSplit(s: string, d: char)
    ensures Join(Split(s, d), d) == s
  {
    if s != [] {
      JoinSplit(s[1..], d);
      var rest := Split(s[1..], d);
      if s[0] == d {
        assert ([[]] + rest)[1..] == rest;
      } else if |rest| == 1 {
        assert s == [s[0]] + s[1..];
      } else {
        assert ([[s[0]] + rest[0]] + rest[1..])[1..] == rest[1..];
        assert Join(rest, d) == rest[0] + [d] + Join(rest[1..], d);
      }
    }
  }

  /** A string without the separator is one piece. */
  lemma {:induction false} SplitWithout(a: string, d: char)
    requires d !in a
    ensures Split(a, d) == [a]
  {
    if a != [] {
      assert d !in a[1..] by {
        forall c | c in a[1..] ensures c in a { }
      }
      SplitWithout(a[1..], d);
      assert a[0] != d by { assert a[0] in a; }
      assert [a[0]] + a[1..] == a;
    }
  }

  /** Splitting at the first separator: the first piece is everything before
    * it, and the other pieces are those of everything after it. */
  lemma {:induction false} SplitAtFirst(a: string, b: string, d: char)
    requires d !in a
    ensures Split(a + [d] + b, d) == [a] + Split(b, d)
  {
    if a == [] {
      assert a + [d] + b == [d] + b;
      assert ([d] + b)[1..] == b;
    } else {
      assert (a + [d] + b)[1..] == a[1..] + [d] + b;
      assert d !in a[1..] by {
        forall c | c in a[1..] ensures c in a { }
      }
      SplitAtFirst(a[1..], b, d);
      assert [a[0]] + a[1..] == a;
    }
  }

  /** Splitting a string whose separators are exactly the joins gives back
    * the parts. */
  lemma {:induction false} SplitJoin(parts: seq<string>, d: char)
    requires |parts| >= 1
    requires forall i :: 0 <= i < |parts| ==> d !in parts[i]
    ensures Split(Join(parts, d), d) == parts
  {
    if |parts| == 1 {
      SplitWithout(parts[0], d);
    } else {
      SplitJoin(parts[1..], d);
      SplitAtFirst(parts[0], Join(parts[1..], d), d);
      assert [parts[0]] + parts[1..] == parts;
    }
  }

  /** Joining pieces that avoid a character other than the separator gives a
    * string that avoids it too. */
  lemma {:induction false} JoinAvoids(parts: seq<string>, d: char, c: char)
    requires c != d
    requires forall i :: 0 <= i < |parts| ==> c !in parts[i]
    ensures c !in Join(parts, d)
  {
    if |parts| > 1 {
      JoinAvoids(parts[1..], d, c);
    }
  }

  /** Every character of a piece is in the joined text. */
  lemma {:induction false} JoinHasPiece(pieces: seq<string>, k: int, d: char)
    requires 0 <= k < |pieces|
    ensures forall x :: x in pieces[k] ==> x in Join(pieces, d)
  {
    if |pieces| > 1 && k > 0 {
      JoinHasPiece(pieces[1..], k - 1, d);
    }
  }

  /** A piece of a split string avoids every character the string avoids. */
  lemma SplitAvoids(s: string, d: char, c: char, k: int)
    requires c !in s
    requires 0 <= k < |Split(s, d)|
    ensures c !in Split(s, d)[k]
  {
    JoinSplit(s, d);
    JoinHasPiece(Split(s, d), k, d);
  }

  /** The first piece of `a + tail`, when `a` has no separator and `tail` is
    * empty or begins with one, is `a`; there is a second piece exactly when
    * `tail` is not empty. */
  lemma SplitHead(a: string, tail: string, d: char)
    requires d !in a
    requires tail == [] || tail[0] == d
    ensures Split(a + tail, d)[0] == a
    ensures |Split(a + tail, d)| >= 2 <==> tail != []
    ensures tail != [] ==> Split(a + tail, d)[1..] == Split(tail[1..], d)
  {
    if tail == [] {
      assert a + tail == a;
      SplitWithout(a, d);
    } else {
      assert a + tail == a + [d] + tail[1..];
      SplitAtFirst(a, tail[1..], d);
    }
  }

  // ---------------------------------------------------------------- lower case

  /** The upper-case letters this model lower-cases: A-Z and the Latin-1
    * capitals U+00C0..U+00DE except the multiplication sign U+00D7. */
  predicate IsUpper(c: char) {
    ('A' <= c <= 'Z') || ('\U{00C0}' <= c <= '\U{00DE}' && c != '\U{00D7}')
  }

  /** The lower-case form of one character; every other character is kept. */
  function ToLower(c: char): (r: char)
    ensures !IsUpper(r)
    ensures !IsUpper(c) ==> r == c
    ensures IsUpper(c) ==> r as int == c as int + 32
  {
    if IsUpper(c) then (c as int + 32) as char else c
  }

  /** `toLowerCase`, character by character: no upper-case letter is left,
    * and every other character stays where it was. */
  function LowerCase(s: string): (r: string)
    ensures |r| == |s|
    ensures forall i :: 0 <= i < |r| ==> !IsUpper(r[i])
    ensures forall i :: 0 <= i < |s| && !IsUpper(s[i]) ==> r[i] == s[i]
    ensures forall i :: 0 <= i < |s| ==> r[i] == ToLower(s[i])
  {
    seq(|s|, i requires 0 <= i < |s| => ToLower(s[i]))
  }

  /** Lower-casing works piece by piece. */
  lemma LowerCaseConcat(a: string, b: string)
    ensures LowerCase(a + b) == LowerCase(a) + LowerCase(b)
  {
    var l, r := LowerCase(a + b), LowerCase(a) + LowerCase(b);
    forall i | 0 <= i < |l| ensures l[i] == r[i] {
      if i < |a| {
        assert (a + b)[i] == a[i];
      } else {
        assert (a + b)[i] == b[i - |a|];
      }
    }
  }

  // ---------------------------------------------------------------- removing characters

  /** `s.replace(/x/g, '')` for a one-character class `unwanted`: the
    * characters of `s` that are not unwanted, in order. */
  function Drop(s: string, unwanted: char -> bool): (r: string)
    ensures |r| <= |s|
    ensures forall i :: 0 <= i < |r| ==> !unwanted(r[i])
  {
    if s == [] then []
    else (if unwanted(s[0]) then [] else [s[0]]) + Drop(s[1..], unwanted)
  }

  lemma DropOne(c: char, unwanted: char -> bool)
    ensures Drop([c], unwanted) == if unwanted(c) then [] else [c]
  {
    assert [c][1..] == [];
  }

  /** Removing characters works piece by piece. */
  lemma {:induction false} DropConcat(a: string, b: string, unwanted: char -> bool)
    ensures Drop(a + b, unwanted) == Drop(a, unwanted) + Drop(b, unwanted)
  {
    if a == [] {
      assert a + b == b;
    } else {
      assert (a + b)[1..] == a[1..] + b;
      DropConcat(a[1..], b, unwanted);
    }
  }

  /** Nothing to remove leaves the string unchanged. */
  lemma {:induction false} DropNone(s: string, unwanted: char -> bool)
    requires forall i :: 0 <= i < |s| ==> !unwanted(s[i])
    ensures Drop(s, unwanted) == s
  {
    if s != [] {
      DropNone(s[1..], unwanted);
    }
  }

  /** Whatever holds of every character of `s` holds of every character
    * that is kept. */
  lemma {:induction false} DropKeeps(s: string, unwanted: char -> bool, property: char -> bool)
    requires forall i :: 0 <= i < |s| ==> property(s[i])
    ensures forall i :: 0 <= i < |Drop(s, unwanted)| ==> property(Drop(s, unwanted)[i])
  {
    if s != [] {
      DropKeeps(s[1..], unwanted, property);
    }
  }

  /** A string made only of unwanted characters is removed entirely. */
  lemma {:induction false} DropAll(s: string, unwanted: char -> bool)
    requires forall i :: 0 <= i < |s| ==> unwanted(s[i])
    ensures Drop(s, unwanted) == []
  {
    if s != [] {
      DropAll(s[1..], unwanted);
    }
  }

  // ---------------------------------------------------------------- literal replacement

  /** `pat` occurs in `s` starting at index `i`. */
  predicate MatchAt(s: string, i: nat, pat: string) {
    i + |pat| <= |s| && s[i..i + |pat|] == pat
  }

  predicate Occurs(s: string, pat: string) {
    exists i: nat | i <= |s| :: MatchAt(s, i, pat)
  }

  /** `s.replace(/pat/g, v)` for a literal pattern: scanning from the left,
    * each occurrence is replaced and the scan resumes after it. */
  function ReplaceAll(s: string, pat: string, v: string): string
    requires |pat| > 0
    decreases |s|
  {
    if |s| < |pat| then s
    else if s[..|pat|] == pat then v + ReplaceAll(s[|pat|..], pat, v)
    else [s[0]] + ReplaceAll(s[1..], pat, v)
  }

  /** A pattern that does not occur leaves the string unchanged. */
  lemma {:induction false} ReplaceAllAbsent(s: string, pat: string, v: string)
    requires |pat| > 0
    requires !Occurs(s, pat)
    ensures ReplaceAll(s, pat, v) == s
  {
    if |s| >= |pat| {
      assert !MatchAt(s, 0, pat);
      assert !Occurs(s[1..], pat) by {
        forall i: nat | MatchAt(s[1..], i, pat) ensures MatchAt(s, i + 1, pat) {
          assert s[1..][i..i + |pat|] == s[i + 1..i + 1 + |pat|];
        }
      }
      ReplaceAllAbsent(s[1..], pat, v);
    }
  }

  /** A prefix in which no occurrence starts is copied unchanged. */
  lemma {:induction false} ReplaceAllSkip(a: string, rest: string, pat: string, v: string)
    requires |pat| > 0
    requires forall i: nat :: i < |a| ==> !MatchAt(a + rest, i, pat)
    ensures ReplaceAll(a + rest, pat, v) == a + ReplaceAll(rest, pat, v)
  {
    var s := a + rest;
    if a == [] {
      assert s == rest;
    } else if |s| >= |pat| {
      assert !MatchAt(s, 0, pat);
      assert s[..|pat|] != pat;
      assert s[1..] == a[1..] + rest;
      forall i: nat | i < |a[1..]| ensures !MatchAt(a[1..] + rest, i, pat) {
        MatchShift(s, i, pat);
      }
      ReplaceAllSkip(a[1..], rest, pat, v);
      assert [s[0]] + (a[1..] + ReplaceAll(rest, pat, v)) == a + ReplaceAll(rest, pat, v);
    } else {
      assert ReplaceAll(s, pat, v) == s;
      assert ReplaceAll(rest, pat, v) == rest;
    }
  }

  /** Matching in the tail is matching one place further on. */
  lemma MatchShift(s: string, i: nat, pat: string)
    requires |s| > 0
    ensures MatchAt(s[1..], i, pat) <==> MatchAt(s, i + 1, pat)
  {
    if i + 1 + |pat| <= |s| {
      assert s[1..][i..i + |pat|] == s[i + 1..i + 1 + |pat|];
    }
  }

  /** Past the prefix, matching in a concatenation is matching in its suffix. */
  lemma MatchPastPrefix(a: string, b: string, i: nat, pat: string)
    requires i >= |a|
    ensures MatchAt(a + b, i, pat) <==> MatchAt(b, i - |a|, pat)
  {
    if i + |pat| <= |a + b| {
      assert (a + b)[i..i + |pat|] == b[i - |a|..i - |a| + |pat|];
    }
  }

  /** An occurrence at the front is replaced and the scan goes on after it. */
  lemma ReplaceAllFront(pat: string, rest: string, v: string)
    requires |pat| > 0
    ensures ReplaceAll(pat + rest, pat, v) == v + ReplaceAll(rest, pat, v)
  {
    assert (pat + rest)[..|pat|] == pat;
    assert (pat + rest)[|pat|..] == rest;
  }

  // ---------------------------------------------------------------- numbers as text

  function DigitChar(d: nat): char
    requires d < 10
  {
    ('0' as int + d) as char
  }

  /** `String(n)` for a non-negative integer: its decimal digits. */
  function Decimal(n: nat): (r: string)
    ensures |r| >= 1
    ensures forall i :: 0 <= i < |r| ==> '0' <= r[i] <= '9'
  {
    if n < 10 then [DigitChar(n)] else Decimal(n / 10) + [DigitChar(n % 10)]
  }

  /** The value of a string of decimal digits. */
  function DecimalValue(s: string): nat
    requires forall i :: 0 <= i < |s| ==> '0' <= s[i] <= '9'
  {
    if s == [] then 0
    else DecimalValue(s[..|s| - 1]) * 10 + (s[|s| - 1] as int - '0' as int)
  }

  /** Reading the digits back gives the number: distinct offsets render as
    * distinct strings. */
  lemma {:induction false} DecimalRoundTrip(n: nat)
    ensures DecimalValue(Decimal(n)) == n
  {
    if n >= 10 {
      DecimalRoundTrip(n / 10);
      var s := Decimal(n);
      assert s[..|s| - 1] == Decimal(n / 10);
    }
  }
}
