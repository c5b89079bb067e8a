/** The "num gen" object-id argument of extract_image_native: split at whitespace,
    exactly two parts, the first read as a u32 and the second as a u16, with the
    rules of Rust's str::parse for unsigned integers. */
module ObjectIdParse {
  import opened Wrappers
  import opened PdfObject

  /** char::is_whitespace: the Unicode White_Space characters. */
  predicate IsWhitespace(c: char) {
    ('\t' <= c <= '\r') || c == ' ' || c == '\U{85}' || c == '\U{A0}' || c == '\U{1680}'
    || ('\U{2000}' <= c <= '\U{200A}') || c == '\U{2028}' || c == '\U{2029}' || c == '\U{202F}'
    || c == '\U{205F}' || c == '\U{3000}'
  }

  predicate IsWord(w: string) {
    |w| > 0 && forall i :: 0 <= i < |w| ==> !IsWhitespace(w[i])
  }

  predicate AllWhitespace(s: string) {
    forall i :: 0 <= i < |s| ==> IsWhitespace(s[i])
  }

  /** str::split_whitespace, collected: the maximal runs of non-whitespace, in order. */
  function Words(s: string): (parts: seq<string>)
    ensures forall k :: 0 <= k < |parts| ==> IsWord(parts[k])
  {
    WordsFrom(s, "")
  }

  /** The words of s when the word `current` is already under way. */
  function WordsFrom(s: string, current: string): (parts: seq<string>)
    requires forall i :: 0 <= i < |current| ==> !IsWhitespace(current[i])
    ensures forall k :: 0 <= k < |parts| ==> IsWord(parts[k])
    decreases |s|
  {
    if s == [] then (if current == [] then [] else [current])
    else if IsWhitespace(s[0]) then
      (if current == [] then WordsFrom(s[1..], "") else [current] + WordsFrom(s[1..], ""))
    else WordsFrom(s[1..], current + [s[0]])
  }

  function Concat(parts: seq<string>): string {
    if parts == [] then [] else parts[0] + Concat(parts[1..])
  }

  function RemoveWhitespace(s: string): string {
    if s == [] then [] else (if IsWhitespace(s[0]) then [] else [s[0]]) + RemoveWhitespace(s[1..])
  }

  /** Words separated by single spaces. */
  function JoinSpaced(parts: seq<string>): string {
    if parts == [] then [] else if |parts| == 1 then parts[0] else parts[0] + " " + JoinSpaced(parts[1..])
  }

  /** Splitting loses nothing but the whitespace. */
  lemma {:induction false} WordsKeepText(s: string, current: string)
    requires forall i :: 0 <= i < |current| ==> !IsWhitespace(current[i])
    ensures Concat(WordsFrom(s, current)) == current + RemoveWhitespace(s)
    decreases |s|
  {
    if s == [] {
    } else if IsWhitespace(s[0]) {
      WordsKeepText(s[1..], "");
      if current != [] {
        ConcatCons(current, WordsFrom(s[1..], ""));
      }
    } else {
      WordsKeepText(s[1..], current + [s[0]]);
    }
  }

  lemma ConcatCons(w: string, parts: seq<string>)
    ensures Concat([w] + parts) == w + Concat(parts)
  {
    assert ([w] + parts)[1..] == parts;
  }

  /** Whitespace ends the current word and nothing more. */
  lemma {:induction false} WordsAfterWhitespace(w: string, s: string, current: string)
    requires AllWhitespace(w)
    requires forall i :: 0 <= i < |current| ==> !IsWhitespace(current[i])
    ensures WordsFrom(w + s, current) == (if current == [] || w == [] then [] else [current])
                                          + WordsFrom(s, if w == [] then current else "")
    decreases |w|
  {
    if w != [] {
      assert (w + s)[0] == w[0] && IsWhitespace(w[0]);
      assert (w + s)[1..] == w[1..] + s;
      WordsAfterWhitespace(w[1..], s, "");
      assert WordsFrom(w[1..] + s, "") == WordsFrom(s, "");
    } else {
      assert w + s == s;
    }
  }

  /** Words then a run of whitespace: the words, and the word under way closed. */
  lemma {:induction false} WordsBeforeWhitespace(s: string, w: string, current: string)
    requires AllWhitespace(w)
    requires forall i :: 0 <= i < |current| ==> !IsWhitespace(current[i])
    ensures WordsFrom(s + w, current) == WordsFrom(s, current)
    decreases |s|
  {
    if s == [] {
      assert s + w == w + [];
      WordsAfterWhitespace(w, [], current);
    } else {
      assert (s + w)[0] == s[0] && (s + w)[1..] == s[1..] + w;
      if IsWhitespace(s[0]) {
        WordsBeforeWhitespace(s[1..], w, "");
      } else {
        WordsBeforeWhitespace(s[1..], w, current + [s[0]]);
      }
    }
  }

  /** Leading and trailing whitespace do not change the split. */
  lemma WordsIgnorePadding(before: string, s: string, after: string)
    requires AllWhitespace(before) && AllWhitespace(after)
    ensures Words(before + s + after) == Words(s)
  {
    WordsAfterWhitespace(before, s + after, "");
    assert before + s + after == before + (s + after);
    WordsBeforeWhitespace(s, after, "");
  }

  /** A word read while another is under way extends it. */
  lemma {:induction false} WordsOfWord(w: string, s: string, current: string)
    requires IsWord(w) || w == []
    requires forall i :: 0 <= i < |current| ==> !IsWhitespace(current[i])
    ensures WordsFrom(w + s, current) == WordsFrom(s, current + w)
    decreases |w|
  {
    if w != [] {
      assert (w + s)[0] == w[0] && (w + s)[1..] == w[1..] + s;
      assert current + [w[0]] + w[1..] == current + w;
      WordsOfWord(w[1..], s, current + [w[0]]);
    } else {
      assert w + s == s && current + w == current;
    }
  }

  /** Splitting words joined by single spaces gives the words back. */
  lemma {:induction false} WordsOfJoinSpaced(parts: seq<string>)
    requires forall k :: 0 <= k < |parts| ==> IsWord(parts[k])
    ensures Words(JoinSpaced(parts)) == parts
    decreases |parts|
  {
    if |parts| == 1 {
      WordsOfWord(parts[0], [], "");
      assert parts[0] + [] == parts[0];
      assert "" + parts[0] == parts[0];
      assert WordsFrom([], parts[0]) == [parts[0]];
    } else if |parts| > 1 {
      var rest := JoinSpaced(parts[1..]);
      assert JoinSpaced(parts) == parts[0] + (" " + rest);
      WordsOfWord(parts[0], " " + rest, "");
      assert "" + parts[0] == parts[0];
      assert (" " + rest)[0] == ' ' && (" " + rest)[1..] == rest;
      assert WordsFrom(" " + rest, parts[0]) == [parts[0]] + WordsFrom(rest, "");
      WordsOfJoinSpaced(parts[1..]);
    }
  }

  predicate IsDigit(c: char) {
    '0' <= c <= '9'
  }

  predicate AllDigits(s: string) {
    forall i :: 0 <= i < |s| ==> IsDigit(s[i])
  }

  /** The value of a string of decimal digits, most significant first. */
  function DecimalValue(s: string): nat
    requires AllDigits(s)
    decreases |s|
  {
    if s == [] then 0 else DecimalValue(s[..|s| - 1]) * 10 + (s[|s| - 1] as int - '0' as int)
  }

  /** u32 / u16 from_str: an optional '+', then at least one digit, and a value below
      the limit; a '-' sign, an empty string, a lone '+', any other character and an
      overflow are errors. */
  function ParseUnsigned(s: string, limit: nat): (r: Option<nat>)
    ensures r.Some? ==> r.value < limit
    ensures r.Some? <==> var digits := if |s| > 0 && s[0] == '+' then s[1..] else s;
                         |digits| > 0 && AllDigits(digits) && DecimalValue(digits) < limit
  {
    var digits := if |s| > 0 && s[0] == '+' then s[1..] else s;
    if |digits| > 0 && AllDigits(digits) && DecimalValue(digits) < limit then Some(DecimalValue(digits))
    else None
  }

  /** u32::to_string / u16::to_string: no sign, no leading zeros. */
  function Decimal(n: nat): (s: string)
    ensures |s| > 0 && AllDigits(s)
    decreases n
  {
    if n < 10 then [DigitChar(n)] else Decimal(n / 10) + [DigitChar(n % 10)]
  }

  function DigitChar(d: nat): (c: char)
    requires d < 10
    ensures IsDigit(c) && c as int - '0' as int == d
  {
    ('0' as int + d) as char
  }

  lemma {:induction false} DecimalValueOfDecimal(n: nat)
    ensures DecimalValue(Decimal(n)) == n
    decreases n
  {
    var s := Decimal(n);
    if n >= 10 {
      DecimalValueOfDecimal(n / 10);
      assert s[..|s| - 1] == Decimal(n / 10);
    }
  }

  /** A number written out by to_string parses back, with or without a '+'. */
  lemma ParseDecimal(n: nat, limit: nat)
    requires n < limit
    ensures ParseUnsigned(Decimal(n), limit) == Some(n)
    ensures ParseUnsigned("+" + Decimal(n), limit) == Some(n)
  {
    DecimalValueOfDecimal(n);
    assert ("+" + Decimal(n))[1..] == Decimal(n);
  }

  /** Leading zeros do not change the value read. */
  lemma {:induction false} LeadingZeroValue(s: string)
    requires AllDigits(s)
    ensures DecimalValue("0" + s) == DecimalValue(s)
    decreases |s|
  {
    if s != [] {
      var t := "0" + s;
      assert t[..|t| - 1] == "0" + s[..|s| - 1];
      LeadingZeroValue(s[..|s| - 1]);
    }
  }

  /** Why an object-id argument was refused; each becomes a ProcessingError. */
  datatype IdError = InvalidFormat | InvalidNumber | InvalidGeneration

  function ParseObjectId(s: string): Result<ObjectId, IdError> {
    var parts := Words(s);
    if |parts| != 2 then Err(InvalidFormat)
    else match ParseUnsigned(parts[0], U32_LIMIT)
      case None => Err(InvalidNumber)
      case Some(num) =>
        match ParseUnsigned(parts[1], U16_LIMIT)
        case None => Err(InvalidGeneration)
        case Some(gen) => Ok(ObjectId(num, gen))
  }

  /** The errors in the order they are checked, and the id on success: the
      first part as a u32 and the second as a u16. */
  lemma ParseObjectIdOutcome(s: string)
    ensures var parts := Words(s);
            && (ParseObjectId(s) == Err(InvalidFormat) <==> |parts| != 2)
            && (ParseObjectId(s) == Err(InvalidNumber) <==>
                  |parts| == 2 && ParseUnsigned(parts[0], U32_LIMIT).None?)
            && (ParseObjectId(s) == Err(InvalidGeneration) <==>
                  |parts| == 2 && ParseUnsigned(parts[0], U32_LIMIT).Some? && ParseUnsigned(parts[1], U16_LIMIT).None?)
            && (ParseObjectId(s).Ok? ==>
                  ParseObjectId(s).value.num < U32_LIMIT && ParseObjectId(s).value.gen < U16_LIMIT
                  && Some(ParseObjectId(s).value.num) == ParseUnsigned(parts[0], U32_LIMIT)
                  && Some(ParseObjectId(s).value.gen) == ParseUnsigned(parts[1], U16_LIMIT))
  {
  }

  /** The "num gen" form of an id. */
  function FormatObjectId(id: ObjectId): string {
    Decimal(id.num) + " " + Decimal(id.gen)
  }

  /** Every lopdf id written as "num gen", with any whitespace around it, parses back. */
  lemma ParseFormatted(id: ObjectId, before: string, after: string)
    requires id.num < U32_LIMIT && id.gen < U16_LIMIT
    requires AllWhitespace(before) && AllWhitespace(after)
    ensures ParseObjectId(before + FormatObjectId(id) + after) == Ok(id)
  {
    var parts := [Decimal(id.num), Decimal(id.gen)];
    assert JoinSpaced(parts) == FormatObjectId(id) by {
      assert parts[1..] == [Decimal(id.gen)];
    }
    WordsOfJoinSpaced(parts);
    WordsIgnorePadding(before, FormatObjectId(id), after);
    ParseDecimal(id.num, U32_LIMIT);
    ParseDecimal(id.gen, U16_LIMIT);
  }

  /** Two words with one space between them split into those two words. */
  lemma TwoWords(a: string, b: string)
    requires IsWord(a) && IsWord(b)
    ensures Words(a + " " + b) == [a, b]
  {
    assert JoinSpaced([a, b]) == a + " " + b by {
      assert [a, b][1..] == [b];
    }
    WordsOfJoinSpaced([a, b]);
  }

  /** Three words with single spaces between them split into those three words. */
  lemma ThreeWords(a: string, b: string, c: string)
    requires IsWord(a) && IsWord(b) && IsWord(c)
    ensures Words(a + " " + b + " " + c) == [a, b, c]
  {
    var parts := [a, b, c];
    assert parts[1..] == [b, c] && parts[1..][1..] == [c];
    assert JoinSpaced([b, c]) == b + " " + c;
    assert JoinSpaced(parts) == a + " " + (b + " " + c);
    assert a + " " + (b + " " + c) == a + " " + b + " " + c;
    WordsOfJoinSpaced(parts);
  }

  /** A lone number and a full "num gen R" reference are refused for their shape. */
  lemma RefusedShapes()
    ensures ParseObjectId("12") == Err(InvalidFormat)
    ensures ParseObjectId("12 0 R") == Err(InvalidFormat)
  {
    WordsOfJoinSpaced(["12"]);
    assert "12 0 R" == "12" + " " + "0" + " " + "R";
    ThreeWords("12", "0", "R");
  }

  /** A sign other than '+' is not a digit. */
  lemma RefusedSign()
    ensures ParseObjectId("-1 0") == Err(InvalidNumber)
  {
    assert "-1 0" == "-1" + " " + "0";
    TwoWords("-1", "0");
    assert !IsDigit('-');
  }

  /** 65536 does not fit a u16 generation. */
  lemma RefusedGeneration()
    ensures ParseObjectId("12 65536") == Err(InvalidGeneration)
  {
    assert "12 65536" == "12" + " " + "65536";
    TwoWords("12", "65536");
    ValueOfTwelve();
    ValueOf65536();
  }

  lemma ValueOfTwelve()
    ensures DecimalValue("12") == 12
  {
    assert "12"[..1] == "1";
    assert "1"[..0] == "";
  }

  lemma ValueOf65536()
    ensures DecimalValue("65536") == 65536
  {
    assert "65536"[..4] == "6553";
    assert "6553"[..3] == "655";
    assert "655"[..2] == "65";
    assert "65"[..1] == "6";
    assert "6"[..0] == "";
  }
}
