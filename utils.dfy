/**
 * The field normalisers and the URL template substitution of utils.js:
 * `parseAddress`, `parseContactNumber` and `resolvePlaceholder`.
 */
module Utils {
  import opened Wrappers
  import opened Text

  /** JavaScript's `s || null` for a string: the empty string is falsy. */
  function OrNull(s: string): (r: Option<string>)
    ensures r.None? <==> s == []
    ensures r.Some? ==> r.value == s
  {
    if s == [] then None else Some(s)
  }

  /** `s.trim() || null` is `null` exactly for a blank `s`. */
  lemma BlankIsNull(s: string)
    ensures OrNull(Trim(s)).None? <==> forall i :: 0 <= i < |s| ==> IsWhitespace(s[i])
  {
    TrimBlank(s);
  }

  // ---------------------------------------------------------------- parseAddress

  datatype Address = Address(street: Option<string>, zip: Option<string>,
                             city: Option<string>, district: Option<string>)

  /** `parseAddress`: the input is the address lines joined with `|`.  The
    * street is the first line; the second line, shaped
    * `"<zip> <city>, <district>"`, gives the other three fields.  An empty or
    * absent input gives no address at all. */
  function ParseAddress(address: Option<string>): (r: Option<Address>)
    ensures r.None? <==> address.None? || address.value == []
  {
    if address.None? || address.value == [] then None
    else
      var lines := Split(address.value, '|');
      var street := OrNull(Trim(lines[0]));
      if |lines| < 2 then Some(Address(street, None, None, None))
      else Some(Address(street, ZipOf(lines[1]), CityOf(lines[1]), DistrictOf(lines[1])))
  }

  /** The district taken from the second address line: when there is one,
    * it is non-empty, trimmed and holds no comma. */
  function DistrictOf(line: string): (r: Option<string>)
    ensures r.Some? ==> r.value != [] && Trimmed(r.value) && ',' !in r.value
  {
    var pieces := Split(line, ',');
    if |pieces| >= 2 then
      TrimAvoids(pieces[1], ',');
      OrNull(Trim(pieces[1]))
    else None
  }

  /** The zip taken from the second address line: when there is one, it is a
    * non-empty token with no space and no comma. */
  function ZipOf(line: string): (r: Option<string>)
    ensures r.Some? ==> r.value != [] && ' ' !in r.value && ',' !in r.value
  {
    var before := Split(line, ',')[0];
    TrimAvoids(before, ',');
    SplitAvoids(Trim(before), ' ', ',', 0);
    OrNull(Split(Trim(before), ' ')[0])
  }

  /** The city taken from the second address line: when there is one, it is
    * a non-empty token with no space and no comma. */
  function CityOf(line: string): (r: Option<string>)
    ensures r.Some? ==> r.value != [] && ' ' !in r.value && ',' !in r.value
  {
    var before := Split(line, ',')[0];
    var tokens := Split(Trim(before), ' ');
    if |tokens| >= 2 then
      TrimAvoids(before, ',');
      SplitAvoids(Trim(before), ' ', ',', 1);
      OrNull(tokens[1])
    else None
  }

  /** The first line and the second line of `first + "|" + second + tail`. */
  lemma {:induction false} Lines(first: string, second: string, tail: string)
    requires '|' !in first && '|' !in second
    requires tail == [] || tail[0] == '|'
    ensures var lines := Split(first + "|" + second + tail, '|');
            |lines| >= 2 && lines[0] == first && lines[1] == second
  {
    FirstTwoPieces(first, second, tail, '|');
  }

  /** The street is the first `|`-line, trimmed, or null when that is blank. */
  lemma {:induction false} StreetIsFirstLine(first: string, tail: string)
    requires '|' !in first
    requires tail == [] || tail[0] == '|'
    requires first + tail != []
    ensures ParseAddress(Some(first + tail)).value.street == OrNull(Trim(first))
  {
    SplitHead(first, tail, '|');
  }

  /** Without a second line, zip, city and district are all null. */
  lemma {:induction false} OneLineHasOnlyStreet(line: string)
    requires '|' !in line
    requires line != []
    ensures ParseAddress(Some(line)) == Some(Address(OrNull(Trim(line)), None, None, None))
  {
    SplitWithout(line, '|');
  }

  /** With a second line, zip, city and district are read from it alone. */
  lemma {:induction false} FieldsFromSecondLine(first: string, second: string, tail: string)
    requires '|' !in first && '|' !in second
    requires tail == [] || tail[0] == '|'
    ensures ParseAddress(Some(first + "|" + second + tail))
            == Some(Address(OrNull(Trim(first)), ZipOf(second), CityOf(second), DistrictOf(second)))
  {
    Lines(first, second, tail);
  }

  /** The district is the text between the first and the second comma of the
    * line, trimmed, or null when that text is blank. */
  lemma {:induction false} DistrictIsSecondCommaPiece(before: string, piece: string, after: string)
    requires ',' !in before && ',' !in piece
    requires after == [] || after[0] == ','
    ensures DistrictOf(before + "," + piece + after) == OrNull(Trim(piece))
  {
    assert before + "," + piece + after == before + [','] + (piece + after);
    SplitAtFirst(before, piece + after, ',');
    SplitHead(piece, after, ',');
  }

  /** A line without a comma has no district. */
  lemma {:induction false} NoCommaNoDistrict(line: string)
    requires ',' !in line
    ensures DistrictOf(line) == None
  {
    SplitWithout(line, ',');
  }

  /** Zip and city are the first two space-separated tokens of the trimmed
    * text before the first comma; any further tokens are dropped. */
  lemma {:induction false} ZipAndCityAreFirstTokens(before: string, after: string,
                                                   zip: string, city: string, more: string)
    requires ',' !in before
    requires after == [] || after[0] == ','
    requires Trim(before) == zip + " " + city + more
    requires ' ' !in zip && ' ' !in city
    requires more == [] || more[0] == ' '
    ensures ZipOf(before + after) == OrNull(zip) && CityOf(before + after) == OrNull(city)
  {
    SplitHead(before, after, ',');
    assert Split(before + after, ',')[0] == before;
    FirstTwoPieces(zip, city, more, ' ');
    var tokens := Split(zip + " " + city + more, ' ');
    assert ZipOf(before + after) == OrNull(tokens[0]);
    assert CityOf(before + after) == OrNull(tokens[1]);
  }

  /** The first two pieces of `a + [d] + b + tail` split at `d`. */
  lemma FirstTwoPieces(a: string, b: string, tail: string, d: char)
    requires d !in a && d !in b
    requires tail == [] || tail[0] == d
    ensures var pieces := Split(a + [d] + b + tail, d);
            |pieces| >= 2 && pieces[0] == a && pieces[1] == b
  {
    assert a + [d] + b + tail == a + [d] + (b + tail);
    SplitAtFirst(a, b + tail, d);
    SplitHead(b, tail, d);
  }

  /** When the text before the first comma is a single token it is the zip,
    * and there is no city. */
  lemma {:induction false} SingleTokenIsZip(before: string, after: string)
    requires ',' !in before
    requires after == [] || after[0] == ','
    requires ' ' !in Trim(before)
    ensures ZipOf(before + after) == OrNull(Trim(before)) && CityOf(before + after) == None
  {
    SplitHead(before, after, ',');
    SplitWithout(Trim(before), ' ');
  }

  /** A well-formed address, as the directory prints it. */
  predicate WellFormed(a: Address) {
    && a.street.Some? && a.zip.Some? && a.city.Some? && a.district.Some?
    && a.street.value != [] && Trimmed(a.street.value) && '|' !in a.street.value
    && a.zip.value != [] && a.city.value != []
    && (forall c :: c in a.zip.value ==> !IsWhitespace(c) && c != ',' && c != '|')
    && (forall c :: c in a.city.value ==> !IsWhitespace(c) && c != ',' && c != '|')
    && a.district.value != [] && Trimmed(a.district.value)
    && ',' !in a.district.value && '|' !in a.district.value
  }

  /** Two address lines joined with `|`, the second `"<zip> <city>, <district>"`. */
  function FormatAddress(a: Address): string
    requires WellFormed(a)
  {
    a.street.value + "|" + a.zip.value + " " + a.city.value + ", " + a.district.value
  }

  /** The second line of a printed address. */
  function SecondLineOf(a: Address): string
    requires WellFormed(a)
  {
    a.zip.value + " " + a.city.value + "," + " " + a.district.value
  }

  /** Parsing a well-formed printed address recovers every field. */
  lemma {:induction false} ParseFormatRoundTrip(a: Address)
    requires WellFormed(a)
    ensures ParseAddress(Some(FormatAddress(a))) == Some(a)
  {
    PrintedLines(a);
    PrintedDistrict(a);
    PrintedZipAndCity(a);
    TrimKeepsTrimmed(a.street.value);
  }

  lemma PrintedLines(a: Address)
    requires WellFormed(a)
    ensures ParseAddress(Some(FormatAddress(a)))
            == Some(Address(OrNull(Trim(a.street.value)), ZipOf(SecondLineOf(a)),
                            CityOf(SecondLineOf(a)), DistrictOf(SecondLineOf(a))))
  {
    var s, z, c, d := a.street.value, a.zip.value, a.city.value, a.district.value;
    var second := SecondLineOf(a);
    assert '|' !in z && '|' !in c;
    assert '|' !in second by {
      assert second == z + " " + c + "," + " " + d;
    }
    assert FormatAddress(a) == s + "|" + second + [];
    FieldsFromSecondLine(s, second, []);
  }

  lemma PrintedDistrict(a: Address)
    requires WellFormed(a)
    ensures DistrictOf(SecondLineOf(a)) == a.district
  {
    var z, c, d := a.zip.value, a.city.value, a.district.value;
    var before := z + " " + c;
    assert ',' !in z && ',' !in c;
    assert ',' !in before && ',' !in " " + d;
    assert SecondLineOf(a) == before + "," + (" " + d) + [];
    DistrictIsSecondCommaPiece(before, " " + d, []);
    TrimAfterWhitespace(" ", d);
  }

  lemma PrintedZipAndCity(a: Address)
    requires WellFormed(a)
    ensures ZipOf(SecondLineOf(a)) == a.zip && CityOf(SecondLineOf(a)) == a.city
  {
    var z, c, d := a.zip.value, a.city.value, a.district.value;
    var before := z + " " + c;
    assert ' ' !in z && ' ' !in c && ',' !in z && ',' !in c by {
      assert IsWhitespace(' ');
    }
    assert Trimmed(before) by {
      assert before[0] == z[0] && z[0] in z;
      assert before[|before| - 1] == c[|c| - 1] && c[|c| - 1] in c;
    }
    TrimKeepsTrimmed(before);
    assert SecondLineOf(a) == before + ("," + " " + d);
    assert before == z + " " + c + [];
    ZipAndCityAreFirstTokens(before, "," + " " + d, z, c, []);
  }

  /** The worked example of a directory address. */
  lemma ParseAddressExample()
    ensures ParseAddress(Some("Hauptstr. 12|12345 Musterstadt, Bayern"))
            == Some(Address(Some("Hauptstr. 12"), Some("12345"), Some("Musterstadt"), Some("Bayern")))
  {
    var a := Address(Some("Hauptstr. 12"), Some("12345"), Some("Musterstadt"), Some("Bayern"));
    ExampleIsWellFormed(a);
    assert FormatAddress(a) == "Hauptstr. 12|12345 Musterstadt, Bayern";
    ParseFormatRoundTrip(a);
  }

  lemma ExampleIsWellFormed(a: Address)
    requires a == Address(Some("Hauptstr. 12"), Some("12345"), Some("Musterstadt"), Some("Bayern"))
    ensures WellFormed(a)
  {
  }

  /** A city name of two words keeps only its first word. */
  lemma MultiWordCityIsTruncated(address: string)
    requires address == "Am Markt 1|61348 Bad Homburg, Hessen"
    ensures ParseAddress(Some(address))
            == Some(Address(Some("Am Markt 1"), Some("61348"), Some("Bad"), Some("Hessen")))
  {
    var street, second := "Am Markt 1", "61348 Bad Homburg, Hessen";
    calc {
      ParseAddress(Some(address));
      { ExampleLines(address, street, second); }
      Some(Address(OrNull(Trim(street)), ZipOf(second), CityOf(second), DistrictOf(second)));
      { TrimKeepsTrimmed(street); ExampleDistrict(second); ExampleZipAndCity(second); }
      Some(Address(Some("Am Markt 1"), Some("61348"), Some("Bad"), Some("Hessen")));
    }
  }

  lemma ExampleLines(address: string, street: string, second: string)
    requires address == "Am Markt 1|61348 Bad Homburg, Hessen"
    requires street == "Am Markt 1" && second == "61348 Bad Homburg, Hessen"
    ensures ParseAddress(Some(address))
            == Some(Address(OrNull(Trim(street)), ZipOf(second), CityOf(second), DistrictOf(second)))
  {
    ExampleLineShape(address, street, second);
    FieldsFromSecondLine(street, second, []);
  }

  lemma ExampleLineShape(address: string, street: string, second: string)
    requires address == "Am Markt 1|61348 Bad Homburg, Hessen"
    requires street == "Am Markt 1" && second == "61348 Bad Homburg, Hessen"
    ensures address == street + "|" + second + []
    ensures '|' !in street && '|' !in second
  {
  }

  lemma ExampleDistrict(line: string)
    requires line == "61348 Bad Homburg, Hessen"
    ensures DistrictOf(line) == Some("Hessen")
  {
    ExampleDistrictPiece(line, "61348 Bad Homburg", " Hessen");
    ExampleTrim(" Hessen", "Hessen");
  }

  lemma ExampleDistrictPiece(line: string, before: string, piece: string)
    requires line == "61348 Bad Homburg, Hessen"
    requires before == "61348 Bad Homburg" && piece == " Hessen"
    ensures DistrictOf(line) == OrNull(Trim(piece))
  {
    assert line == before + "," + piece + [];
    DistrictIsSecondCommaPiece(before, piece, []);
  }

  lemma ExampleTrim(piece: string, district: string)
    requires piece == " Hessen" && district == "Hessen"
    ensures Trim(piece) == district
  {
    assert piece == " " + district;
    TrimAfterWhitespace(" ", district);
  }

  lemma ExampleZipAndCity(line: string)
    requires line == "61348 Bad Homburg, Hessen"
    ensures ZipOf(line) == Some("61348") && CityOf(line) == Some("Bad")
  {
    ExampleTokens(line, "61348 Bad Homburg", ", Hessen", "61348", "Bad", " Homburg");
  }

  lemma ExampleTokens(line: string, before: string, after: string,
                      zip: string, city: string, more: string)
    requires line == "61348 Bad Homburg, Hessen"
    requires before == "61348 Bad Homburg" && after == ", Hessen"
    requires zip == "61348" && city == "Bad" && more == " Homburg"
    ensures ZipOf(line) == OrNull(zip) && CityOf(line) == OrNull(city)
  {
    ExampleTokenText(before, zip, city, more);
    assert line == before + after;
    ZipAndCityAreFirstTokens(before, after, zip, city, more);
  }

  lemma ExampleTokenText(before: string, zip: string, city: string, more: string)
    requires before == "61348 Bad Homburg"
    requires zip == "61348" && city == "Bad" && more == " Homburg"
    ensures Trim(before) == zip + " " + city + more
  {
    TrimKeepsTrimmed(before);
    assert before == zip + " " + city + more;
  }

  // ---------------------------------------------------------------- parseContactNumber

  /** A contact number: the source stores the first three characters under
    * the key `type` (`"tel"`, `"fax"`, ...) and the rest as `number`. */
  datatype ContactNumber = ContactNumber(kind: string, number: string)

  /** The characters the cleaning step deletes after lower-casing:
    * whitespace, `-`, `/`, `:`, `.`, `(` and `)`. */
  predicate IsPunctuation(c: char) {
    IsWhitespace(c) || c == '-' || c == '/' || c == ':' || c == '.' || c == '(' || c == ')'
  }

  /** The chain of `toLowerCase` and seven `replace(.., '')` calls, in the
    * source's order. The cleaned text is no longer than the input and has
    * no upper-case letter and none of the deleted characters left. */
  function CleanContact(s: string): (r: string)
    ensures |r| <= |s|
    ensures forall i :: 0 <= i < |r| ==> !IsUpper(r[i]) && !IsPunctuation(r[i])
  {
    var lowered := LowerCase(s);
    var noSpace := Drop(lowered, IsWhitespace);
    DropKeeps(lowered, IsWhitespace, c => !IsUpper(c));
    var noHyphen := Drop(noSpace, c => c == '-');
    DropKeeps(noSpace, c => c == '-', c => !IsUpper(c) && !IsWhitespace(c));
    var noSlash := Drop(noHyphen, c => c == '/');
    DropKeeps(noHyphen, c => c == '/', c => !IsUpper(c) && !IsWhitespace(c) && c != '-');
    var noColon := Drop(noSlash, c => c == ':');
    DropKeeps(noSlash, c => c == ':', c => !IsUpper(c) && !IsWhitespace(c) && c != '-' && c != '/');
    var noDot := Drop(noColon, c => c == '.');
    DropKeeps(noColon, c => c == '.',
              c => !IsUpper(c) && !IsWhitespace(c) && c != '-' && c != '/' && c != ':');
    var noOpen := Drop(noDot, c => c == '(');
    DropKeeps(noDot, c => c == '(',
              c => !IsUpper(c) && !IsWhitespace(c) && c != '-' && c != '/' && c != ':' && c != '.');
    DropKeeps(noOpen, c => c == ')',
              c => !IsUpper(c) && !IsWhitespace(c) && c != '-' && c != '/' && c != ':' && c != '.' && c != '(');
    Drop(noOpen, c => c == ')')
  }

  /** Cleaning is one pass over the text: each character is lower-cased
    * and kept unless it is one of the deleted characters. */
  lemma {:induction false} CleanContactIsOnePass(s: string)
    ensures CleanContact(s) == Drop(LowerCase(s), IsPunctuation)
  {
    if s != [] {
      var l := LowerCase(s);
      assert l == [ToLower(s[0])] + LowerCase(s[1..]);
      calc {
        CleanContact(s);
        { assert [s[0]] + s[1..] == s; CleanContactConcat([s[0]], s[1..]); }
        CleanContact([s[0]]) + CleanContact(s[1..]);
        { CleanContactIsOnePass(s[1..]); }
        CleanContact([s[0]]) + Drop(LowerCase(s[1..]), IsPunctuation);
        { CleanContactChar(s[0]); DropOne(ToLower(s[0]), IsPunctuation); }
        Drop([ToLower(s[0])], IsPunctuation) + Drop(LowerCase(s[1..]), IsPunctuation);
        { DropConcat([ToLower(s[0])], LowerCase(s[1..]), IsPunctuation); }
        Drop(l, IsPunctuation);
      }
    }
  }

  /** Cleaning one character lower-cases it and drops it if it is one of the
    * deleted characters. */
  lemma CleanContactChar(c: char)
    ensures CleanContact([c]) == if IsPunctuation(ToLower(c)) then [] else [ToLower(c)]
  {
    var l := ToLower(c);
    assert LowerCase([c]) == [l];
    var p1: char -> bool := IsWhitespace;
    var p2: char -> bool := c => c == '-';
    var p3: char -> bool := c => c == '/';
    var p4: char -> bool := c => c == ':';
    var p5: char -> bool := c => c == '.';
    var p6: char -> bool := c => c == '(';
    var p7: char -> bool := c => c == ')';
    if IsPunctuation(l) {
      DropOne(l, p1);
      if !p1(l) { DropOne(l, p2); }
      if !p1(l) && !p2(l) { DropOne(l, p3); }
      if !p1(l) && !p2(l) && !p3(l) { DropOne(l, p4); }
      if !p1(l) && !p2(l) && !p3(l) && !p4(l) { DropOne(l, p5); }
      if !p1(l) && !p2(l) && !p3(l) && !p4(l) && !p5(l) { DropOne(l, p6); }
      if !p1(l) && !p2(l) && !p3(l) && !p4(l) && !p5(l) && !p6(l) { DropOne(l, p7); }
      assert Drop([], p1) == [] && Drop([], p2) == [] && Drop([], p3) == [];
    } else {
      DropNone([l], p1);
      DropNone([l], p2);
      DropNone([l], p3);
      DropNone([l], p4);
      DropNone([l], p5);
      DropNone([l], p6);
      DropNone([l], p7);
    }
  }

  /** Cleaning works piece by piece. */
  lemma CleanContactConcat(a: string, b: string)
    ensures CleanContact(a + b) == CleanContact(a) + CleanContact(b)
  {
    LowerCaseConcat(a, b);
    var p1: char -> bool := IsWhitespace;
    var p2: char -> bool := c => c == '-';
    var p3: char -> bool := c => c == '/';
    var p4: char -> bool := c => c == ':';
    var p5: char -> bool := c => c == '.';
    var p6: char -> bool := c => c == '(';
    var p7: char -> bool := c => c == ')';
    var x0, y0 := LowerCase(a), LowerCase(b);
    DropConcat(x0, y0, p1);
    var x1, y1 := Drop(x0, p1), Drop(y0, p1);
    DropConcat(x1, y1, p2);
    var x2, y2 := Drop(x1, p2), Drop(y1, p2);
    DropConcat(x2, y2, p3);
    var x3, y3 := Drop(x2, p3), Drop(y2, p3);
    DropConcat(x3, y3, p4);
    var x4, y4 := Drop(x3, p4), Drop(y3, p4);
    DropConcat(x4, y4, p5);
    var x5, y5 := Drop(x4, p5), Drop(y4, p5);
    DropConcat(x5, y5, p6);
    var x6, y6 := Drop(x5, p6), Drop(y5, p6);
    DropConcat(x6, y6, p7);
  }

  /** Cleaning a cleaned text changes nothing. */
  lemma CleanContactIdempotent(s: string)
    ensures CleanContact(CleanContact(s)) == CleanContact(s)
  {
    var r := CleanContact(s);
    CleanContactIsOnePass(r);
    assert LowerCase(r) == r;
    DropNone(r, IsPunctuation);
  }

  /** `parseContactNumber`: null for an empty or absent text; otherwise the
    * cleaned text split after its third character. */
  function ParseContactNumber(text: Option<string>): (r: Option<ContactNumber>)
    ensures r.None? <==> text.None? || text.value == []
    ensures r.Some? ==> r.value.kind + r.value.number == CleanContact(text.value)
    ensures r.Some? ==> |r.value.kind| == if |CleanContact(text.value)| < 3 then |CleanContact(text.value)| else 3
  {
    if text.None? || text.value == [] then None
    else
      var cleaned := CleanContact(text.value);
      var cut := if |cleaned| < 3 then |cleaned| else 3;
      Some(ContactNumber(cleaned[..cut], cleaned[cut..]))
  }

  /** The worked example of a telephone line. */
  lemma ParseContactNumberExample(text: string)
    requires text == "Tel: 030-1234567"
    ensures ParseContactNumber(Some(text)) == Some(ContactNumber("tel", "0301234567"))
  {
    var cleaned := "tel" + "030" + "1234567";
    ExampleCleaned(text, "tel", ": ", "030", "-", "1234567");
    assert cleaned[..3] == "tel" && cleaned[3..] == "0301234567";
  }

  lemma ExampleCleaned(text: string, a: string, b: string, c: string, d: string, e: string)
    requires text == "Tel: 030-1234567"
    requires a == "tel" && b == ": " && c == "030" && d == "-" && e == "1234567"
    ensures CleanContact(text) == a + c + e
  {
    CleanContactIsOnePass(text);
    ExampleLowered(text, a + b + c + d + e);
    ExampleDropped(a, b, c, d, e);
  }

  lemma ExampleLowered(text: string, lowered: string)
    requires text == "Tel: 030-1234567" && lowered == "tel: 030-1234567"
    ensures LowerCase(text) == lowered
  {
    assert ToLower('T') == 't';
  }

  lemma ExampleDropped(a: string, b: string, c: string, d: string, e: string)
    requires a == "tel" && b == ": " && c == "030" && d == "-" && e == "1234567"
    ensures Drop(a + b + c + d + e, IsPunctuation) == a + c + e
  {
    assert forall i :: 0 <= i < |a| ==> !IsPunctuation(a[i]);
    assert forall i :: 0 <= i < |b| ==> IsPunctuation(b[i]);
    assert forall i :: 0 <= i < |c| ==> !IsPunctuation(c[i]);
    assert forall i :: 0 <= i < |d| ==> IsPunctuation(d[i]);
    assert forall i :: 0 <= i < |e| ==> !IsPunctuation(e[i]);
    DropAlternating(a, b, c, d, e, IsPunctuation);
  }

  /** Kept, removed, kept, removed, kept: the removed runs go. */
  lemma DropAlternating(a: string, b: string, c: string, d: string, e: string, P: char -> bool)
    requires forall i :: 0 <= i < |a| ==> !P(a[i])
    requires forall i :: 0 <= i < |b| ==> P(b[i])
    requires forall i :: 0 <= i < |c| ==> !P(c[i])
    requires forall i :: 0 <= i < |d| ==> P(d[i])
    requires forall i :: 0 <= i < |e| ==> !P(e[i])
    ensures Drop(a + b + c + d + e, P) == a + c + e
  {
    var ab, cd := a + b, c + d;
    assert a + b + c + d + e == (ab + cd) + e;
    KeptThenDropped(a, b, P);
    KeptThenDropped(c, d, P);
    DropConcat(ab, cd, P);
    DropConcat(ab + cd, e, P);
    DropNone(e, P);
  }

  lemma KeptThenDropped(x: string, y: string, P: char -> bool)
    requires forall i :: 0 <= i < |x| ==> !P(x[i])
    requires forall i :: 0 <= i < |y| ==> P(y[i])
    ensures Drop(x + y, P) == x
  {
    DropConcat(x, y, P);
    DropNone(x, P);
    DropAll(y, P);
  }

  // ---------------------------------------------------------------- resolvePlaceholder

  /** The text `{{key}}` that `resolvePlaceholder` replaces. */
  function Placeholder(key: string): (p: string)
    ensures |p| == |key| + 4
  {
    "{{" + key + "}}"
  }

  /** The substitutions of `resolvePlaceholder`, one key after the other in
    * the order of `values` (the order in which `for...in` visits them). */
  function ResolveAll(s: string, values: seq<(string, string)>): (r: string)
    ensures (forall i :: 0 <= i < |values| ==> !Occurs(s, Placeholder(values[i].0))) ==> r == s
    decreases |values|
  {
    if values == [] then s
    else
      var pat := Placeholder(values[0].0);
      AbsentUnchanged(s, pat, values[0].1);
      assert forall i :: 0 <= i < |values| - 1 ==> values[1..][i] == values[i + 1];
      ResolveAll(ReplaceAll(s, pat, values[0].1), values[1..])
  }

  /** A pattern that does not occur is not replaced. */
  lemma AbsentUnchanged(s: string, pat: string, v: string)
    requires |pat| > 0
    ensures !Occurs(s, pat) ==> ReplaceAll(s, pat, v) == s
  {
    if !Occurs(s, pat) {
      ReplaceAllAbsent(s, pat, v);
    }
  }

  /** `resolvePlaceholder`: the loop that rewrites the string once per key. */
  method ResolvePlaceholder(template: string, values: seq<(string, string)>) returns (r: string)
    ensures r == ResolveAll(template, values)
  {
    r := template;
    var i := 0;
    while i < |values|
      invariant 0 <= i <= |values|
      invariant ResolveAll(r, values[i..]) == ResolveAll(template, values)
    {
      assert values[i..][1..] == values[i + 1..];
      r := ReplaceAll(r, Placeholder(values[i].0), values[i].1);
      i := i + 1;
    }
  }

  /** One replacement can create the very placeholder it removed: the value
    * `"ab"` holds no `{{ab}}`, yet after the pass one is left. */
  lemma ReplacementCanLeavePlaceholder(s: string)
    requires s == "{{{{ab}}}}"
    ensures !Occurs("ab", Placeholder("ab"))
    ensures ReplaceAll(s, Placeholder("ab"), "ab") == Placeholder("ab")
  {
    var pat := Placeholder("ab");
    assert pat == "{{ab}}";
    assert s[..6] != pat by { assert s[2] != pat[2]; }
    assert s[1..][..6] != pat by { assert s[3] != pat[2]; }
    assert s[2..][..6] == pat;
    assert s[2..][6..] == "}}";
    calc {
      ReplaceAll(s, pat, "ab");
      [s[0]] + ReplaceAll(s[1..], pat, "ab");
      { assert s[1..][1..] == s[2..]; }
      [s[0]] + [s[1]] + ReplaceAll(s[2..], pat, "ab");
      [s[0]] + [s[1]] + "ab" + ReplaceAll("}}", pat, "ab");
      "{{ab}}";
    }
  }

  /** A template as the configuration writes it: literal text and `{{key}}` slots. */
  datatype Piece = Literal(text: string) | Slot(key: string)

  function PieceText(p: Piece): string {
    match p
    case Literal(t) => t
    case Slot(k) => Placeholder(k)
  }

  function Render(t: seq<Piece>): string {
    if t == [] then [] else PieceText(t[0]) + Render(t[1..])
  }

  predicate BraceFree(s: string) {
    '{' !in s && '}' !in s
  }

  /** No braces in the literal text, in the keys or in the values. */
  predicate Plain(t: seq<Piece>) {
    forall i :: 0 <= i < |t| ==> BraceFree(if t[i].Literal? then t[i].text else t[i].key)
  }

  /** The template with each `key` slot replaced by the literal `value`. */
  function Fill(t: seq<Piece>, key: string, value: string): (r: seq<Piece>)
    ensures |r| == |t|
    ensures forall i :: 0 <= i < |t| ==> r[i] == if t[i] == Slot(key) then Literal(value) else t[i]
  {
    if t == [] then []
    else [if t[0] == Slot(key) then Literal(value) else t[0]] + Fill(t[1..], key, value)
  }

  function FillAll(t: seq<Piece>, values: seq<(string, string)>): seq<Piece>
    decreases |values|
  {
    if values == [] then t else FillAll(Fill(t, values[0].0, values[0].1), values[1..])
  }

  /** In a plain template no occurrence of another key's placeholder starts
    * inside a piece. */
  lemma NoMatchInside(p: Piece, rest: string, key: string)
    requires BraceFree(if p.Literal? then p.text else p.key) && BraceFree(key)
    requires p != Slot(key)
    ensures forall i: nat :: i < |PieceText(p)| ==> !MatchAt(PieceText(p) + rest, i, Placeholder(key))
  {
    var pat := Placeholder(key);
    var s := PieceText(p) + rest;
    forall i: nat | i < |PieceText(p)| ensures !MatchAt(s, i, pat) {
      if i + |pat| <= |s| {
        var j := MismatchIn(p, rest, key, i);
        assert s[i..i + |pat|][j] == s[i + j];
      }
    }
  }

  /** An offset at which `{{key}}`, laid at index `i` of the piece's text,
    * differs from it. */
  ghost function MismatchIn(p: Piece, rest: string, key: string, i: nat): (j: nat)
    requires BraceFree(if p.Literal? then p.text else p.key) && BraceFree(key)
    requires p != Slot(key)
    requires i < |PieceText(p)| && i + |Placeholder(key)| <= |PieceText(p) + rest|
    ensures j < |Placeholder(key)|
    ensures (PieceText(p) + rest)[i + j] != Placeholder(key)[j]
  {
    var pat := Placeholder(key);
    var s := PieceText(p) + rest;
    match p
    case Literal(t) =>
      assert s[i] == t[i] && t[i] in t;
      0
    case Slot(k) =>
      var n, m := |k|, |key|;
      if i >= 2 then
        if i < 2 + n then
          assert s[i] == k[i - 2] && k[i - 2] in k;
          0
        else
          assert s[i] == '}';
          0
      else if i == 1 then
        if n > 0 then
          assert s[2] == k[0] && k[0] in k;
          1
        else
          assert s[2] == '}';
          1
      else if n == m then
        var d :| 0 <= d < n && k[d] != key[d];
        assert s[2 + d] == k[d] && pat[2 + d] == key[d];
        2 + d
      else if n < m then
        assert s[2 + n] == '}';
        assert pat[2 + n] == key[n] && key[n] in key;
        2 + n
      else
        assert s[2 + m] == k[m] && k[m] in k;
        assert pat[2 + m] == '}';
        2 + m
  }

  /** Replacing one key in a rendered plain template is filling its slots. */
  lemma {:induction false} ReplaceRendered(t: seq<Piece>, key: string, value: string)
    requires Plain(t) && BraceFree(key)
    ensures ReplaceAll(Render(t), Placeholder(key), value) == Render(Fill(t, key, value))
  {
    var pat := Placeholder(key);
    if t != [] {
      var head, rest := PieceText(t[0]), Render(t[1..]);
      assert Plain(t[1..]) by {
        forall i | 0 <= i < |t[1..]| ensures t[1..][i] == t[i + 1] { }
      }
      ReplaceRendered(t[1..], key, value);
      assert Fill(t, key, value)[1..] == Fill(t[1..], key, value);
      if t[0] == Slot(key) {
        ReplaceAllFront(pat, rest, value);
      } else {
        assert BraceFree(if t[0].Literal? then t[0].text else t[0].key);
        NoMatchInside(t[0], rest, key);
        ReplaceAllSkip(head, rest, pat, value);
      }
    }
  }

  /** Filling with a brace-free value keeps the template plain, removes the
    * key's slots and adds no slot. */
  lemma FillKeepsPlain(t: seq<Piece>, key: string, value: string)
    requires Plain(t) && BraceFree(value)
    ensures Plain(Fill(t, key, value))
    ensures Slot(key) !in Fill(t, key, value)
    ensures forall k :: Slot(k) !in t ==> Slot(k) !in Fill(t, key, value)
  {
  }

  /** Resolving a rendered plain template with brace-free keys and values is
    * filling its slots, key after key. */
  lemma {:induction false} ResolveRendered(t: seq<Piece>, values: seq<(string, string)>)
    requires Plain(t)
    requires forall i :: 0 <= i < |values| ==> BraceFree(values[i].0) && BraceFree(values[i].1)
    ensures ResolveAll(Render(t), values) == Render(FillAll(t, values))
    ensures Plain(FillAll(t, values))
    ensures forall i :: 0 <= i < |values| ==> Slot(values[i].0) !in FillAll(t, values)
    decreases |values|
  {
    if values != [] {
      var (k, v) := values[0];
      ReplaceRendered(t, k, v);
      FillKeepsPlain(t, k, v);
      ResolveRendered(Fill(t, k, v), values[1..]);
      var done := FillAll(t, values);
      forall i | 0 <= i < |values| ensures Slot(values[i].0) !in done {
        if i > 0 { assert values[i] == values[1..][i - 1]; }
        else { FillAllAddsNoSlot(Fill(t, k, v), values[1..], k); }
      }
    }
  }

  lemma {:induction false} FillAllAddsNoSlot(t: seq<Piece>, values: seq<(string, string)>, key: string)
    requires Slot(key) !in t
    ensures Slot(key) !in FillAll(t, values)
    decreases |values|
  {
    if values != [] {
      FillAllAddsNoSlot(Fill(t, values[0].0, values[0].1), values[1..], key);
    }
  }

  /** A plain template without a `key` slot renders with no `{{key}}` in it. */
  lemma {:induction false} NoSlotNoPlaceholder(t: seq<Piece>, key: string)
    requires Plain(t) && BraceFree(key) && Slot(key) !in t
    ensures !Occurs(Render(t), Placeholder(key))
  {
    if t != [] {
      var pat := Placeholder(key);
      var head, rest := PieceText(t[0]), Render(t[1..]);
      assert Plain(t[1..]) by {
        forall i | 0 <= i < |t[1..]| ensures t[1..][i] == t[i + 1] { }
      }
      assert Slot(key) !in t[1..] by {
        forall p | p in t[1..] ensures p in t { }
      }
      NoSlotNoPlaceholder(t[1..], key);
      assert BraceFree(if t[0].Literal? then t[0].text else t[0].key);
      NoMatchInside(t[0], rest, key);
      assert Render(t) == head + rest;
      forall i: nat | i <= |head + rest| ensures !MatchAt(head + rest, i, pat) {
        if i >= |head| {
          MatchPastPrefix(head, rest, i, pat);
        }
      }
    }
  }

  /** `<a>{{k}}` with the value `v` for `k` gives `<a><v>`. */
  lemma OneSlot(a: string, k: string, v: string)
    requires BraceFree(a) && BraceFree(k) && BraceFree(v)
    ensures ResolveAll(a + Placeholder(k), [(k, v)]) == a + v
  {
    var t := [Literal(a), Slot(k)];
    assert Render(t) == a + Placeholder(k) by {
      assert Render(t[1..][1..]) == [];
    }
    ResolveRendered(t, [(k, v)]);
    var f := Fill(t, k, v);
    assert f == [Literal(a), Literal(v)];
    assert FillAll(t, [(k, v)]) == f by {
      assert [(k, v)][1..] == [];
    }
    assert Render(f[1..][1..]) == [];
  }

  /** `<a>{{k1}}<b>{{k2}}` with values for two distinct keys gives
    * `<a><v1><b><v2>`. */
  lemma TwoSlots(a: string, k1: string, v1: string, b: string, k2: string, v2: string)
    requires k1 != k2
    requires BraceFree(a) && BraceFree(b) && BraceFree(k1) && BraceFree(k2)
    requires BraceFree(v1) && BraceFree(v2)
    ensures ResolveAll(a + Placeholder(k1) + b + Placeholder(k2), [(k1, v1), (k2, v2)]) == a + v1 + b + v2
  {
    var t := [Literal(a), Slot(k1), Literal(b), Slot(k2)];
    var values := [(k1, v1), (k2, v2)];
    var f := [Literal(a), Literal(v1), Literal(b), Literal(v2)];
    RenderFour(t);
    RenderFour(f);
    FillTwice(a, k1, v1, b, k2, v2);
    ResolveRendered(t, values);
  }

  lemma RenderFour(t: seq<Piece>)
    requires |t| == 4
    ensures Render(t) == PieceText(t[0]) + PieceText(t[1]) + PieceText(t[2]) + PieceText(t[3])
  {
    var t1 := t[1..];
    var t2 := t1[1..];
    var t3 := t2[1..];
    assert Render(t3) == PieceText(t[3]) by { assert t3[1..] == []; }
    assert Render(t2) == PieceText(t[2]) + PieceText(t[3]);
    assert Render(t1) == PieceText(t[1]) + PieceText(t[2]) + PieceText(t[3]);
  }

  lemma FillTwice(a: string, k1: string, v1: string, b: string, k2: string, v2: string)
    requires k1 != k2
    ensures FillAll([Literal(a), Slot(k1), Literal(b), Slot(k2)], [(k1, v1), (k2, v2)])
      == [Literal(a), Literal(v1), Literal(b), Literal(v2)]
  {
    var t := [Literal(a), Slot(k1), Literal(b), Slot(k2)];
    var values := [(k1, v1), (k2, v2)];
    var once := Fill(t, k1, v1);
    assert once == [Literal(a), Literal(v1), Literal(b), Slot(k2)];
    var twice := Fill(once, k2, v2);
    assert twice == [Literal(a), Literal(v1), Literal(b), Literal(v2)];
    assert values[1..] == [(k2, v2)];
    assert FillAll(twice, values[1..][1..]) == twice;
    assert FillAll(once, values[1..]) == twice;
  }

  /** Once every key has been resolved in a plain template, none of their
    * placeholders is left. */
  lemma ResolvedTemplateIsComplete(t: seq<Piece>, values: seq<(string, string)>)
    requires Plain(t)
    requires forall i :: 0 <= i < |values| ==> BraceFree(values[i].0) && BraceFree(values[i].1)
    ensures forall i :: 0 <= i < |values| ==> !Occurs(ResolveAll(Render(t), values), Placeholder(values[i].0))
  {
    ResolveRendered(t, values);
    forall i | 0 <= i < |values|
      ensures !Occurs(ResolveAll(Render(t), values), Placeholder(values[i].0))
    {
      NoSlotNoPlaceholder(FillAll(t, values), values[i].0);
    }
  }
}
