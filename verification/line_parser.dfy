/**
 * Reading one input record: the quoted-token scanner that stands in for the
 * pattern `"([^"]*)"(?:,|$)`, the mapping of the first six tokens to an
 * individual, and the error cases of `parseLine`.
 */
module LineParser {
  import opened Wrappers
  import opened Integers
  import opened Strings
  import opened TextNormalizer
  import opened Addresses
  import opened Individuals

  /** The number of fields of a record. */
  const InputFormatRecordCount: nat := 6

  predicate QuoteFree(s: string)
  {
    forall i :: 0 <= i < |s| ==> s[i] != '"'
  }

  // ---------------------------------------------------------------------------
  // The quoted-token scanner

  /** A successful match: the captured group and the input after the match. */
  datatype Match = Match(token: string, after: string)

  /**
   * `[^"]*"`: the characters before the first quote of `t`, and what follows
   * that quote; `None` when `t` has no quote.
   */
  function TakeBody(t: string): Option<Match>
  {
    if t == [] then None
    else if t[0] == '"' then Some(Match([], t[1..]))
    else
      var m := TakeBody(t[1..]);
      if m.None? then None else Some(Match([t[0]] + m.value.token, m.value.after))
  }

  /**
   * One match of the pattern starting exactly at the front of `t`: the token
   * between the quotes and the text after the match. A comma after the
   * closing quote is part of the match; the end anchor consumes nothing.
   */
  function MatchAt(t: string): (r: Option<Match>)
    ensures r.Some? ==> |r.value.after| < |t|
  {
    if t == [] || t[0] != '"' then None
    else
      TakeBodySpec(t[1..]);
      var m := TakeBody(t[1..]);
      if m.None? then None
      else if m.value.after != [] && m.value.after[0] == ',' then Some(Match(m.value.token, m.value.after[1..]))
      else if AtInputEnd(m.value.after) then m
      else None
  }

  /** `Matcher.find`: the leftmost match in `t`. */
  function FindMatch(t: string): (r: Option<Match>)
    ensures r.Some? ==> |r.value.after| < |t|
  {
    if t == [] then None
    else if MatchAt(t).Some? then MatchAt(t)
    else FindMatch(t[1..])
  }

  /** Every token that successive `find` calls report, in order. */
  function QuotedTokens(t: string): seq<string>
    decreases |t|
  {
    var m := FindMatch(t);
    if m.None? then [] else [m.value.token] + QuotedTokens(m.value.after)
  }

  /**
   * The scanning loop of `parseLine`: `find` is called until it fails or
   * six tokens are stored. The tokens stored are the first six that the
   * scanner reports, or all of them when there are fewer.
   */
  method ScanQuotedTokens(line: string) returns (parts: array<string>, index: nat)
    ensures fresh(parts) && parts.Length == InputFormatRecordCount
    ensures index == Min(InputFormatRecordCount, |QuotedTokens(line)|)
    ensures parts[..index] == QuotedTokens(line)[..index]
  {
    parts := new string[InputFormatRecordCount];
    index := 0;
    var rest := line;
    while true
      invariant index <= parts.Length
      invariant QuotedTokens(line) == parts[..index] + QuotedTokens(rest)
      decreases |rest|
    {
      var found := FindMatch(rest);
      if !(found.Some? && index < parts.Length) {
        ScanStops(QuotedTokens(line), parts[..index], rest);
        break;
      }
      QuotedTokensStep(rest);
      ghost var stored := parts[..index];
      StoreToken(QuotedTokens(line), stored, found.value.token, QuotedTokens(rest), QuotedTokens(found.value.after));
      parts[index] := found.value.token;
      assert parts[..index + 1] == stored + [found.value.token];
      index := index + 1;
      rest := found.value.after;
    }
  }

  /** One `find` call: the token it reports, then the tokens of the rest. */
  lemma QuotedTokensStep(t: string)
    requires FindMatch(t).Some?
    ensures |FindMatch(t).value.after| < |t|
    ensures QuotedTokens(t) == [FindMatch(t).value.token] + QuotedTokens(FindMatch(t).value.after)
  {
  }

  lemma StoreToken(all: seq<string>, stored: seq<string>, token: string, pending: seq<string>, later: seq<string>)
    requires all == stored + pending && pending == [token] + later
    ensures all == (stored + [token]) + later
  {
  }

  /** When the loop stops, the stored tokens are the first ones reported, six at most. */
  lemma ScanStops(all: seq<string>, stored: seq<string>, rest: string)
    requires all == stored + QuotedTokens(rest)
    requires FindMatch(rest).None? || |stored| >= InputFormatRecordCount
    requires |stored| <= InputFormatRecordCount
    ensures |stored| == Min(InputFormatRecordCount, |all|)
    ensures stored == all[..|stored|]
  {
  }

  function Min(a: int, b: int): int { if a <= b then a else b }

  /** The body is exactly the text before the first quote. */
  lemma {:induction false} TakeBodySpec(t: string)
    ensures TakeBody(t).None? <==> QuoteFree(t)
    ensures TakeBody(t).Some? ==> t == TakeBody(t).value.token + ['"'] + TakeBody(t).value.after
    ensures TakeBody(t).Some? ==> QuoteFree(TakeBody(t).value.token)
  {
    if t != [] && t[0] != '"' {
      TakeBodySpec(t[1..]);
      QuoteFreeCons(t[0], t[1..]);
      assert t == [t[0]] + t[1..];
      var m := TakeBody(t[1..]);
      if m.Some? {
        QuoteFreeCons(t[0], m.value.token);
      }
    }
  }

  lemma QuoteFreeCons(c: char, s: string)
    ensures QuoteFree([c] + s) <==> c != '"' && QuoteFree(s)
  {
    if c != '"' && QuoteFree(s) {
      forall i | 0 <= i < |[c] + s| ensures ([c] + s)[i] != '"' {
        if i > 0 { assert ([c] + s)[i] == s[i - 1]; }
      }
    }
    if QuoteFree([c] + s) {
      assert ([c] + s)[0] == c;
      forall i | 0 <= i < |s| ensures s[i] != '"' {
        assert s[i] == ([c] + s)[i + 1];
      }
    }
  }

  /** No token holds a quote character. */
  lemma {:induction false} FindMatchQuoteFree(t: string)
    ensures FindMatch(t).Some? ==> QuoteFree(FindMatch(t).value.token)
  {
    if t != [] {
      if MatchAt(t).Some? {
        TakeBodySpec(t[1..]);
      } else {
        FindMatchQuoteFree(t[1..]);
      }
    }
  }

  lemma {:induction false} QuotedTokensQuoteFree(t: string)
    ensures forall i :: 0 <= i < |QuotedTokens(t)| ==> QuoteFree(QuotedTokens(t)[i])
    decreases |t|
  {
    FindMatchQuoteFree(t);
    if FindMatch(t).Some? {
      QuotedTokensQuoteFree(FindMatch(t).value.after);
    }
  }

  // ---------------------------------------------------------------------------
  // Writing records: the inverse of the scanner

  function Quote(f: string): string
  {
    ['"'] + f + ['"']
  }

  /** A record in the input format: every field quoted, fields separated by commas. */
  function RenderRecord(fs: seq<string>): string
  {
    if fs == [] then ""
    else if |fs| == 1 then Quote(fs[0])
    else Quote(fs[0]) + "," + RenderRecord(fs[1..])
  }

  lemma {:induction false} TakeBodyOf(f: string, rest: string)
    requires QuoteFree(f)
    ensures TakeBody(f + ['"'] + rest) == Some(Match(f, rest))
  {
    if f != [] {
      TakeBodyOf(f[1..], rest);
      assert (f + ['"'] + rest)[1..] == f[1..] + ['"'] + rest;
      assert [f[0]] + f[1..] == f;
    }
  }

  /** A quoted field followed by a comma, or ending the line, is matched at once. */
  lemma MatchQuoted(f: string, rest: string)
    requires QuoteFree(f)
    ensures FindMatch(Quote(f) + "," + rest) == Some(Match(f, rest))
    ensures FindMatch(Quote(f)) == Some(Match(f, ""))
  {
    var t := Quote(f) + "," + rest;
    assert t[1..] == f + ['"'] + ("," + rest);
    TakeBodyOf(f, "," + rest);
    assert ("," + rest)[1..] == rest;
    assert MatchAt(t) == Some(Match(f, rest));
    assert Quote(f)[1..] == f + ['"'] + "";
    TakeBodyOf(f, "");
  }

  /** Reading a written record gives back its fields, when no field holds a quote. */
  lemma {:induction false} QuotedTokensOfRecord(fs: seq<string>)
    requires forall i :: 0 <= i < |fs| ==> QuoteFree(fs[i])
    ensures QuotedTokens(RenderRecord(fs)) == fs
  {
    if |fs| == 1 {
      MatchQuoted(fs[0], "");
      assert QuotedTokens("") == [];
    } else if |fs| > 1 {
      var rest := RenderRecord(fs[1..]);
      MatchQuoted(fs[0], rest);
      QuotedTokensOfRecord(fs[1..]);
    }
  }

  // ---------------------------------------------------------------------------
  // Parsing a record

  /** Why a line is rejected; `Message` is the exception message. */
  datatype ParseError =
    | InvalidRecord(lineNumber: int)
    | NumberFormat(input: string)
    | NegativeAge

  function Message(e: ParseError): string
  {
    match e
    case InvalidRecord(n) => "Invalid record at line " + IntToDecimal(n)
    case NumberFormat(s) => "For input string: \"" + s + "\""
    case NegativeAge => "Age should be positive value."
  }

  /** `parseAddress`: the line unified, the city capitalized, the state upper-cased. */
  function NormalizedAddress(addressLine: string, city: string, state: string): AddressKey
  {
    AddressKey(UnifiedAddressLine(addressLine), Capitalized(city), UpperAll(state))
  }

  /** `Integer.parseInt` of the age token followed by the check that the age is not negative. */
  function AgeOf(text: string): Result<int, ParseError>
  {
    match ParseInt(text)
    case None => Failure(NumberFormat(text))
    case Some(age) => if age < 0 then Failure(NegativeAge) else Success(age)
  }

  /** The outcome once six tokens are found, stated over those tokens. */
  function RecordOf(fields: seq<string>): Result<Person, ParseError>
    requires |fields| == InputFormatRecordCount
  {
    match AgeOf(fields[5])
    case Failure(e) => Failure(e)
    case Success(age) =>
      Success(Person(fields[0], fields[1], NormalizedAddress(fields[2], fields[3], fields[4]), age))
  }

  /**
   * What `parseLine(line, lineNumber)` returns or throws, as a value:
   * tokens after the sixth are ignored.
   */
  function ParseRecord(line: string, lineNumber: int): Result<Person, ParseError>
  {
    var tokens := QuotedTokens(line);
    if |tokens| < InputFormatRecordCount then Failure(InvalidRecord(lineNumber))
    else RecordOf(tokens[..InputFormatRecordCount])
  }

  // ---------------------------------------------------------------------------
  // Properties of parsing

  /** The age token alone decides between the two number errors and success. */
  lemma AgeOfCases(text: string)
    ensures AgeOf(text) == Failure(NumberFormat(text)) <==> ParseInt(text).None?
    ensures AgeOf(text) == Failure(NegativeAge) <==> ParseInt(text).Some? && ParseInt(text).value < 0
    ensures AgeOf(text).Success? <==> ParseInt(text).Some? && ParseInt(text).value >= 0
    ensures AgeOf(text).Success? ==> AgeOf(text).value == ParseInt(text).value && IsInt32(AgeOf(text).value)
  {
  }

  /** An age of zero is accepted; the check only refuses negative ages. */
  lemma AgeOfExamples()
    ensures AgeOf("25") == Success(25)
    ensures AgeOf("0") == Success(0)
    ensures AgeOf("-5") == Failure(NegativeAge)
    ensures AgeOf("2x") == Failure(NumberFormat("2x"))
    ensures AgeOf("30") == Success(30)
  {
    ParseIntExamples();
    ParseIntRejects();
  }

  /** A line is rejected as an invalid record exactly when the scanner finds fewer than six tokens. */
  lemma ParseRecordInvalid(line: string, lineNumber: int)
    ensures ParseRecord(line, lineNumber) == Failure(InvalidRecord(lineNumber)) <==>
      |QuotedTokens(line)| < InputFormatRecordCount
  {
    var tokens := QuotedTokens(line);
    if |tokens| >= InputFormatRecordCount {
      AgeOfCases(tokens[5]);
    }
  }

  /** The line number only appears in the invalid-record error. */
  lemma ParseRecordLineNumber(line: string, m: int, n: int)
    requires |QuotedTokens(line)| >= InputFormatRecordCount
    ensures ParseRecord(line, m) == ParseRecord(line, n)
  {
  }

  /** Tokens after the sixth are never looked at. */
  lemma ParseRecordIgnoresExtraTokens(a: string, b: string, lineNumber: int)
    requires |QuotedTokens(a)| >= InputFormatRecordCount && |QuotedTokens(b)| >= InputFormatRecordCount
    requires QuotedTokens(a)[..InputFormatRecordCount] == QuotedTokens(b)[..InputFormatRecordCount]
    ensures ParseRecord(a, lineNumber) == ParseRecord(b, lineNumber)
  {
  }

  /**
   * A parsed individual: the names are the first two tokens, neither holding a
   * quote; the address is the next three tokens normalized; the age is the
   * sixth token read as a non-negative `int`.
   */
  lemma ParseRecordSuccess(line: string, lineNumber: int)
    requires ParseRecord(line, lineNumber).Success?
    ensures var t := QuotedTokens(line); var p := ParseRecord(line, lineNumber).value;
      |t| >= InputFormatRecordCount &&
      p.firstName == t[0] && p.lastName == t[1] &&
      p.address == NormalizedAddress(t[2], t[3], t[4]) &&
      ParseInt(t[5]) == Some(p.age) && 0 <= p.age <= MaxInt32
    ensures QuoteFree(ParseRecord(line, lineNumber).value.firstName)
    ensures QuoteFree(ParseRecord(line, lineNumber).value.lastName)
  {
    var t := QuotedTokens(line);
    QuotedTokensQuoteFree(line);
    AgeOfCases(t[5]);
    assert t[..InputFormatRecordCount][0] == t[0] && t[..InputFormatRecordCount][1] == t[1];
  }

  /**
   * The normalized address is in the form the grouping relies on: no comma,
   * semicolon, slash or hyphen in the line, the city capitalized already and
   * no lower-case letter in the state.
   */
  lemma NormalizedAddressShape(addressLine: string, city: string, state: string)
    ensures var k := NormalizedAddress(addressLine, city, state);
      ',' !in k.addressLine && ';' !in k.addressLine && '/' !in k.addressLine && '-' !in k.addressLine &&
      Capitalized(k.city) == k.city &&
      forall i :: 0 <= i < |k.state| ==> !IsLower(k.state[i])
  {
    UnifiedHasNoSeparators(addressLine);
    CapitalizedIdempotent(city);
    UpperAllIsCanonical(state);
  }

  /** Letter case in the input does not matter: differently written addresses land in one household. */
  lemma NormalizedAddressIgnoresCase(addressLine: string, city: string, state: string)
    ensures NormalizedAddress(LowerAll(addressLine), LowerAll(city), LowerAll(state)) ==
      NormalizedAddress(addressLine, city, state)
  {
    UnifiedIgnoresCase(addressLine);
    CapitalizedIgnoresCase(city);
    UpperAllIgnoresCase(state);
  }

  /** The address of the `parseAddress` and `parseLine` tests in HouseholdCalculatorTest. */
  lemma NormalizedAddressExample(addressLine: string, city: string, state: string)
    requires addressLine == "123 Main St." && city == "Anytown" && state == "CA"
    ensures NormalizedAddress(addressLine, city, state) == AddressKey("123 Main St", "Anytown", "CA")
  {
    UnifiedMainStreet(addressLine);
    CapitalizedAnytown(city);
    UpperCA(state);
  }

  lemma CapitalizedAnytown(city: string)
    requires city == "Anytown"
    ensures Capitalized(city) == "Anytown"
  {
    assert IsWord(city);
    CapitalizedOneWord(city);
    assert LowerAll(city[1..]) == city[1..];
  }

  lemma UpperCA(state: string)
    requires state == "CA"
    ensures UpperAll(state) == "CA"
  {
  }

  /** A record written in the input format parses to the record built from its fields. */
  lemma ParseRenderedRecord(fs: seq<string>, lineNumber: int)
    requires |fs| == InputFormatRecordCount && forall i :: 0 <= i < |fs| ==> QuoteFree(fs[i])
    ensures ParseRecord(RenderRecord(fs), lineNumber) == RecordOf(fs)
  {
    QuotedTokensOfRecord(fs);
    assert fs[..InputFormatRecordCount] == fs;
  }

  /** A record with fewer fields than the format asks for is an invalid record. */
  lemma ParseShortRecord(fs: seq<string>, lineNumber: int)
    requires |fs| < InputFormatRecordCount && forall i :: 0 <= i < |fs| ==> QuoteFree(fs[i])
    ensures ParseRecord(RenderRecord(fs), lineNumber) == Failure(InvalidRecord(lineNumber))
  {
    QuotedTokensOfRecord(fs);
  }

  /** The record of the `parseLine` test in HouseholdCalculatorTest. */
  lemma ParseRecordExample(fs: seq<string>)
    requires fs == ["John", "Doe", "123 Main St.", "Anytown", "CA", "25"]
    ensures ParseRecord(RenderRecord(fs), 1) ==
      Success(Person("John", "Doe", AddressKey("123 Main St", "Anytown", "CA"), 25))
  {
    ExampleFieldsQuoteFree(fs);
    ParseRenderedRecord(fs, 1);
    RecordOfExample(fs);
  }

  lemma ExampleFieldsQuoteFree(fs: seq<string>)
    requires fs == ["John", "Doe", "123 Main St.", "Anytown", "CA", "25"]
    ensures forall i :: 0 <= i < |fs| ==> QuoteFree(fs[i])
  {
  }

  lemma RecordOfExample(fs: seq<string>)
    requires fs == ["John", "Doe", "123 Main St.", "Anytown", "CA", "25"]
    ensures RecordOf(fs) == Success(Person("John", "Doe", AddressKey("123 Main St", "Anytown", "CA"), 25))
  {
    var address, age := fs[2], fs[5];
    NormalizedAddressExample(address, fs[3], fs[4]);
    AgeOfExample(age, 25);
  }

  lemma AgeOfExample(text: string, age: int)
    requires (text == "25" && age == 25) || (text == "30" && age == 30)
    ensures AgeOf(text) == Success(age)
  {
    AgeOfExamples();
  }

  /** `parseAddress`: a new address filled in through its setters. */
  method ParseAddress(addressLine: string, city: string, state: string) returns (address: Address)
    ensures fresh(address) && address.Complete()
    ensures address.Key() == NormalizedAddress(addressLine, city, state)
  {
    address := new Address();
    var unified := UnifyAddressLineFormat(addressLine);
    address.SetAddressLine(Some(unified));
    var capitalized := Capitalize(city);
    address.SetCity(Some(capitalized));
    address.SetState(Some(UpperAll(state)));
  }

  /** `parseLine`: the individual the record describes, or the error it is rejected with. */
  method ParseLine(line: string, lineNumber: int) returns (r: Result<Individual, ParseError>)
    ensures r.Failure? <==> ParseRecord(line, lineNumber).Failure?
    ensures r.Failure? ==> r.error == ParseRecord(line, lineNumber).error
    ensures r.Success? ==> fresh(r.value) && fresh(r.value.address) && r.value.Complete()
    ensures r.Success? ==> r.value.Value() == ParseRecord(line, lineNumber).value
  {
    var parts, index := ScanQuotedTokens(line);
    if index != InputFormatRecordCount {
      return Failure(InvalidRecord(lineNumber));
    }
    r := BuildIndividual(parts[..]);
  }

  /** The part of `parseLine` after six tokens are found: filling in a new individual. */
  method BuildIndividual(parts: seq<string>) returns (r: Result<Individual, ParseError>)
    requires |parts| == InputFormatRecordCount
    ensures r.Failure? <==> AgeOf(parts[5]).Failure?
    ensures r.Failure? ==> r.error == AgeOf(parts[5]).error
    ensures r.Success? ==> fresh(r.value) && fresh(r.value.address) && r.value.Complete()
    ensures r.Success? ==>
      r.value.Value() == Person(parts[0], parts[1], NormalizedAddress(parts[2], parts[3], parts[4]), AgeOf(parts[5]).value)
  {
    var i := new Individual();
    i.SetFirstName(Some(parts[0]));
    i.SetLastName(Some(parts[1]));
    var address := ParseAddress(parts[2], parts[3], parts[4]);
    i.SetAddress(address);
    r := SetParsedAge(i, parts[5]);
  }

  /** `i.setAge(Integer.parseInt(text))` and the check that the age is not negative. */
  method SetParsedAge(i: Individual, text: string) returns (r: Result<Individual, ParseError>)
    modifies i
    ensures r.Failure? <==> AgeOf(text).Failure?
    ensures r.Failure? ==> r.error == AgeOf(text).error
    ensures r.Success? ==> r == Success(i) && i.age == AgeOf(text).value
    ensures i.firstName == old(i.firstName) && i.lastName == old(i.lastName) && i.address == old(i.address)
  {
    var age := ParseInt(text);
    if age.None? {
      return Failure(NumberFormat(text));
    }
    i.SetAge(age.value);
    if i.age < 0 {
      return Failure(NegativeAge);
    }
    return Success(i);
  }
}
