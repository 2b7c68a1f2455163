# Household calculator, modelled in Dafny

The household calculator reads a CSV file of people. Each line holds six
double-quoted fields: first name, last name, address line, city, state and
age. The calculator groups the people into households, one per address.

Before addresses are compared, they are normalized:
- `unifyAddressLineFormat` deletes commas, semicolons and slashes, turns
  hyphens into spaces, drops one trailing period from each word, and
  capitalizes the words;
- `capitalize` is used for the city;
- the state is upper-cased.

A line that does not parse is reported with its message and then skipped.
The line counter still advances on it.

The model follows the Java code in these modules:

- `Wrappers`: `Option` and `Result`.
- `Integers`: Java `int` and its wrap-around, `Integer.parseInt`, and decimal
  rendering.
- `Strings`: the `java.lang.String` behaviour the core depends on:
  - ASCII case mapping;
  - `trim`;
  - the `\s` class and the `$` anchor;
  - `compareTo` as lexicographic order;
  - `hashCode` as a wrapped polynomial.
- `TextNormalizer`: `capitalize` and `unifyAddressLineFormat`.
  - Each is a specification function.
  - Each has a method with the Java word loop, proved to compute that function.
  - The properties of the functions are proved as lemmas.
- `Addresses`: class `Address` with its nullable fields, setters, `hashCode`
  and `equals`, and `AddressKey`, the value of a complete address.
- `Individuals`: class `Individual` with its setters and `compareTo`, and
  `Person`, the value of a complete individual.
- `LineParser`: the scan for quoted tokens, the specification `ParseRecord`
  of `parseLine`, and the methods `ParseAddress`, `ParseLine` and
  `BuildIndividual`.
- `Households`: the household index as a value, and `Import`, which specifies
  `importCSVData`. The class `HouseholdCalculator` holds the index in two
  fields. Its import loop is proved to produce exactly the households and
  the error list that `Import` specifies.

The system's design description states three things the code does not do;
the model follows the code in each case:

- The description says re-normalizing an address line returns it unchanged.
  The code removes only one trailing period per call, so `St..` becomes
  `St.` and `St.` then becomes `St` (`TextNormalizer.UnifiedNotIdempotent`).
- The description says a non-numeric age is a malformed-record error carrying
  the 1-based line number, and that every per-line message names its line.
  In the code only `Invalid record at line n` carries the number. A bad age
  raises `NumberFormatException` with `For input string: "…"`, and a
  negative age raises `Age should be positive value.` (`LineParser.Message`,
  `LineParser.ParseRecordLineNumber`).
- The description asks for exactly six quoted fields. The code accepts a
  line with more and ignores the fields after the sixth
  (`LineParser.ParseRecordIgnoresExtraTokens`).

## Model

| member | source | states |
|---|---|---|
| Strings.CompareStrings | src/main/java/com/expeditors/households/Individual.java:48-51 | `String.compareTo`: the difference of the first differing chars, else of the lengths; zero exactly for equal strings |
| Strings.CompareStringsIsLexicographic | src/main/java/com/expeditors/households/Individual.java:48-51 | `String.compareTo` is negative exactly when the first string is lexicographically smaller (a proper prefix, or smaller at the first differing char); it is zero exactly for equal strings |
| Strings.CompareStringsAntisymmetric | src/main/java/com/expeditors/households/Individual.java:48-51 | swapping the operands of `String.compareTo` negates the result |
| Strings.CompareStringsTransitive | src/main/java/com/expeditors/households/Individual.java:48-51 | `String.compareTo` is a transitive order (`<= 0` chains) |
| Strings.StringHash | src/main/java/com/expeditors/households/Address.java:43-45 | `String.hashCode`: `31 * h + c` over the chars with 32-bit wrap-around after each step; always an `int` (its closed form is `StringHashIsPolynomial`) |
| Strings.StringHashIsPolynomial | src/main/java/com/expeditors/households/Address.java:43-45 | `String.hashCode` (31-multiplier, 32-bit wrap after each step) equals the full polynomial sum of the chars wrapped once |
| Strings.Trim | src/main/java/com/expeditors/households/HouseholdCalculator.java:181 | `trim`: the result has no char <= U+0020 at either end (with `TrimFacts`: nothing else is removed) |
| Strings.TrimFacts | src/main/java/com/expeditors/households/HouseholdCalculator.java:181 | `trim` only removes chars, and yields the empty string exactly when every char is <= U+0020 |
| Strings.TrimLower | src/main/java/com/expeditors/households/HouseholdCalculator.java:202 | trimming and lower-casing commute |
| Strings.UpperAll | src/main/java/com/expeditors/households/HouseholdCalculator.java:165 | `toUpperCase`: each lower-case ASCII letter upper-cased, every other char kept (properties in `UpperAllIsCanonical`, `UpperAllIgnoresCase`) |
| Strings.LowerAll | src/main/java/com/expeditors/households/HouseholdCalculator.java:207 | `toLowerCase`: each upper-case ASCII letter lower-cased, every other char kept (properties in `LowerAllIdempotent`, `TrimLower`) |
| Strings.UpperAllIsCanonical | src/main/java/com/expeditors/households/HouseholdCalculator.java:165 | `toUpperCase` leaves no lower-case letter, keeps the length and is idempotent |
| Strings.UpperAllIgnoresCase | src/main/java/com/expeditors/households/HouseholdCalculator.java:165 | upper-casing a lower-cased string gives the same as upper-casing the original |
| Integers.WrapLinear | src/main/java/com/expeditors/households/Address.java:42-46 | wrapping an intermediate `int` result before multiplying and adding does not change the wrapped final result |
| Integers.ParseInt | src/main/java/com/expeditors/households/HouseholdCalculator.java:146 | `Integer.parseInt`: an optional sign and decimal digits within the `int` range; any accepted value is an `int`, starts with a digit or sign, and is negative only after `-` (round trip in `ParseIntOfDecimal`, bounds in `ParseIntRange`) |
| Integers.ParseIntOfDecimal | src/main/java/com/expeditors/households/HouseholdCalculator.java:146 | `Integer.parseInt` of the decimal rendering of any `int` gives that `int` back |
| Integers.ParseIntRange | src/main/java/com/expeditors/households/HouseholdCalculator.java:146 | `parseInt` rejects 2147483648 and accepts -2147483648 (the `int` range limits) |
| Integers.ParseIntRejects | src/main/java/com/expeditors/households/HouseholdCalculator.java:146 | `parseInt` rejects the empty string, a lone sign, trailing garbage and leading blanks |
| TextNormalizer.Capitalized | src/main/java/com/expeditors/households/HouseholdCalculator.java:201-213 | `capitalize`: the words of the trimmed line, each capitalized, joined by single spaces and trimmed (properties in the rows below) |
| TextNormalizer.SplitWords | src/main/java/com/expeditors/households/HouseholdCalculator.java:181 | `trim().split("\\s+")`: always at least one element; the one empty string for a blank line, otherwise exactly the whitespace-separated words (`WordsOfJoin`) |
| TextNormalizer.Capitalize | src/main/java/com/expeditors/households/HouseholdCalculator.java:201-213 | the loop over the split words builds exactly `Capitalized(line)`, the trimmed space-joined capitalized words |
| TextNormalizer.CapitalizedWords | src/main/java/com/expeditors/households/HouseholdCalculator.java:201-213 | the result is the words of the trimmed input, each capitalized, joined by single spaces; every word is capitalized (first char upper-cased, the rest lower-cased) |
| TextNormalizer.CapitalizeWordShape | src/main/java/com/expeditors/households/HouseholdCalculator.java:207 | a capitalized word has no lower-case first letter and no upper-case letter after it |
| TextNormalizer.CapitalizedEdges | src/main/java/com/expeditors/households/HouseholdCalculator.java:212 | the result neither starts nor ends with a blank |
| TextNormalizer.CapitalizedEmpty | src/main/java/com/expeditors/households/HouseholdCalculator.java:202-212 | the result is empty exactly when the input is empty or all blank |
| TextNormalizer.CapitalizedIdempotent | src/main/java/com/expeditors/households/HouseholdCalculator.java:201-213 | capitalizing twice is the same as capitalizing once |
| TextNormalizer.CapitalizedIgnoresCase | src/main/java/com/expeditors/households/HouseholdCalculator.java:207 | the input's letter case does not affect the result |
| TextNormalizer.CapitalizedChars | src/main/java/com/expeditors/households/HouseholdCalculator.java:201-213 | a non-letter, non-space char absent from the input is absent from the result |
| TextNormalizer.CapitalizedExample | src/test/java/com/expeditors/households/HouseholdCalculatorTest.java:97-102 | `123 main st.` capitalizes to `123 Main St.` |
| TextNormalizer.WordsOfJoin | src/main/java/com/expeditors/households/HouseholdCalculator.java:202 | splitting on whitespace undoes joining whitespace-free words with single spaces |
| TextNormalizer.UnifiedAddressLine | src/main/java/com/expeditors/households/HouseholdCalculator.java:175-194 | `unifyAddressLineFormat`: punctuation deleted, hyphens made spaces, each word period-stripped and capitalized, joined and trimmed (properties in the rows below) |
| TextNormalizer.RemovePunctuation | src/main/java/com/expeditors/households/HouseholdCalculator.java:177 | `replaceAll("[,;\\/]", "")`: keeps exactly the chars that are not `,` `;` `/`, in order (`RemovePunctuationChars`, `RemovePunctuationConcat`) |
| TextNormalizer.HyphensToSpaces | src/main/java/com/expeditors/households/HouseholdCalculator.java:178 | `replaceAll("[-]", " ")`: same length, each hyphen replaced by a space |
| TextNormalizer.StripFinalPeriod | src/main/java/com/expeditors/households/HouseholdCalculator.java:185 | `replaceAll("\\.$", "")`: removes the period the `$` anchor follows, if any (`StripFinalPeriodSpec`) |
| TextNormalizer.UnifyAddressLineFormat | src/main/java/com/expeditors/households/HouseholdCalculator.java:175-194 | the loop over the split words builds exactly `UnifiedAddressLine(addressLine)` |
| TextNormalizer.UnifiedHasNoSeparators | src/main/java/com/expeditors/households/HouseholdCalculator.java:177-178 | the unified line contains no comma, semicolon, slash or hyphen |
| TextNormalizer.UnifiedIgnoresDeletedPunctuation | src/main/java/com/expeditors/households/HouseholdCalculator.java:177 | inserting a comma, semicolon or slash anywhere does not change the unified line |
| TextNormalizer.UnifiedHyphenIsSpace | src/main/java/com/expeditors/households/HouseholdCalculator.java:178 | a hyphen anywhere has the same effect as a space |
| TextNormalizer.UnifiedIgnoresCase | src/main/java/com/expeditors/households/HouseholdCalculator.java:175-194 | the input's letter case does not affect the unified line |
| TextNormalizer.UnifiedChars | src/main/java/com/expeditors/households/HouseholdCalculator.java:175-194 | a non-letter, non-space char absent from the input (or deleted by the punctuation rules) is absent from the result |
| TextNormalizer.StripFinalPeriodSpec | src/main/java/com/expeditors/households/HouseholdCalculator.java:185 | a word with a period at the `$` anchor loses exactly that one period; any other word is unchanged |
| TextNormalizer.PeriodAtEndUnique | src/main/java/com/expeditors/households/HouseholdCalculator.java:185 | the `$` anchor admits at most one period position: last char, or before a final line terminator |
| TextNormalizer.StripExamples | src/main/java/com/expeditors/households/HouseholdCalculator.java:185 | `st..` loses only its last period, `a.b` is unchanged, `.` becomes empty |
| TextNormalizer.NormalizePlainWord | src/main/java/com/expeditors/households/HouseholdCalculator.java:185-188 | a word without period or blank is just capitalized |
| TextNormalizer.NormalizeAbbreviation | src/main/java/com/expeditors/households/HouseholdCalculator.java:185-188 | an abbreviation `v.` becomes the capitalized `v` |
| TextNormalizer.UnifiedOfCleanWords | src/main/java/com/expeditors/households/HouseholdCalculator.java:175-194 | a line of clean words joined by single spaces unifies to the period-stripped, capitalized words joined by single spaces |
| TextNormalizer.UnifiedExample | src/test/java/com/expeditors/households/HouseholdCalculatorTest.java:90-95 | `123 main st., apt. 200` unifies to `123 Main St Apt 200` |
| TextNormalizer.UnifiedMainStreet | src/test/java/com/expeditors/households/HouseholdCalculatorTest.java:78-88 | `123 Main St.` unifies to `123 Main St` |
| TextNormalizer.UnifiedNotIdempotent | src/main/java/com/expeditors/households/HouseholdCalculator.java:185 | `St..` unifies to `St.` and that to `St`: unifying is not idempotent |
| Addresses.Address.constructor | src/main/java/com/expeditors/households/Address.java:11-13 | a new address has all three components null |
| Addresses.Address.SetAddressLine | src/main/java/com/expeditors/households/Address.java:75-77 | sets the address line and leaves city and state unchanged |
| Addresses.Address.SetCity | src/main/java/com/expeditors/households/Address.java:79-81 | sets the city and leaves the other components unchanged |
| Addresses.Address.SetState | src/main/java/com/expeditors/households/Address.java:83-85 | sets the state and leaves the other components unchanged |
| Addresses.TextHash | src/main/java/com/expeditors/households/Address.java:43-45 | `Objects.hashCode` of a string: 0 for null, otherwise the wrapped polynomial string hash |
| Addresses.Address.HashCode | src/main/java/com/expeditors/households/Address.java:41-47 | the step-by-step 32-bit hash equals one wrapped polynomial 37^3*7 + 37^2*h(line) + 37*h(city) + h(state) |
| Addresses.Address.Equals | src/main/java/com/expeditors/households/Address.java:55-73 | true exactly when the other object is an Address whose three components are equal (nulls equal), which covers the identity case; false for null and other classes |
| Addresses.EqualsReflexive | src/main/java/com/expeditors/households/Address.java:56-58 | every address equals itself |
| Addresses.EqualsSymmetric | src/main/java/com/expeditors/households/Address.java:55-73 | `equals` is symmetric |
| Addresses.EqualsTransitive | src/main/java/com/expeditors/households/Address.java:55-73 | `equals` is transitive |
| Addresses.EqualsRejectsOthers | src/main/java/com/expeditors/households/Address.java:59-64 | no address equals null or an object of another class |
| Addresses.HashConsistent | src/main/java/com/expeditors/households/Address.java:41-73 | equal addresses have equal hash codes (the hash-map contract) |
| Addresses.EqualsIffSameKey | src/main/java/com/expeditors/households/Address.java:55-73 | two complete addresses are equal exactly when their component values agree, so they can be identified with `AddressKey` values |
| Addresses.HashOfEmpty | src/main/java/com/expeditors/households/Address.java:41-47 | an all-null address hashes to 37^3*7 |
| Individuals.Individual.constructor | src/main/java/com/expeditors/households/Individual.java:8-11 | a new individual has null names, null address and age 0 |
| Individuals.Individual.SetFirstName | src/main/java/com/expeditors/households/Individual.java:57-59 | sets the first name and leaves the other fields unchanged |
| Individuals.Individual.SetLastName | src/main/java/com/expeditors/households/Individual.java:61-63 | sets the last name and leaves the other fields unchanged |
| Individuals.Individual.SetAddress | src/main/java/com/expeditors/households/Individual.java:65-67 | sets the address reference and leaves the other fields unchanged |
| Individuals.Individual.SetAge | src/main/java/com/expeditors/households/Individual.java:69-71 | sets the age and leaves the other fields unchanged |
| Individuals.Individual.CompareTo | src/main/java/com/expeditors/households/Individual.java:47-55 | zero exactly for equal last and first names; negative exactly when the last name is lexicographically smaller, or the last names agree and the first name is smaller |
| Individuals.CompareToReflexive | src/main/java/com/expeditors/households/Individual.java:47-55 | every individual compares equal to itself |
| Individuals.CompareToAntisymmetric | src/main/java/com/expeditors/households/Individual.java:47-55 | swapping the operands negates the comparison |
| Individuals.CompareToTransitive | src/main/java/com/expeditors/households/Individual.java:47-55 | the order is transitive, as the priority queue of occupants requires |
| Individuals.CompareToIgnoresAgeAndAddress | src/main/java/com/expeditors/households/Individual.java:47-55 | only the two names take part in the comparison |
| LineParser.FindMatch | src/main/java/com/expeditors/households/HouseholdCalculator.java:120-134 | `Matcher.find` with the token pattern: the leftmost match; a match always consumes input, so the next search starts strictly further along |
| LineParser.QuotedTokens | src/main/java/com/expeditors/households/HouseholdCalculator.java:120-136 | the tokens that successive `find` calls report, in order: never containing a quote (`QuotedTokensQuoteFree`), and the rendered fields of a record exactly (`QuotedTokensOfRecord`) |
| LineParser.ScanQuotedTokens | src/main/java/com/expeditors/households/HouseholdCalculator.java:129-136 | the scan stores the first min(6, n) quoted tokens of the line, in order, and counts them |
| LineParser.TakeBodySpec | src/main/java/com/expeditors/households/HouseholdCalculator.java:120 | a token body is exactly the text up to the first double quote, and contains no quote |
| LineParser.QuotedTokensQuoteFree | src/main/java/com/expeditors/households/HouseholdCalculator.java:120 | no token contains a double quote |
| LineParser.QuotedTokensOfRecord | src/main/java/com/expeditors/households/HouseholdCalculator.java:120 | rendering quote-free fields as a quoted, comma-separated line and scanning it gives the fields back |
| LineParser.AgeOf | src/main/java/com/expeditors/households/HouseholdCalculator.java:146-150 | the age field: `parseInt`, then rejection of a negative value (cases in `AgeOfCases`) |
| LineParser.Message | src/main/java/com/expeditors/households/HouseholdCalculator.java:139-149 | the exception messages: `Invalid record at line n`, the `NumberFormatException` text `For input string: "…"`, and `Age should be positive value.` |
| LineParser.AgeOfCases | src/main/java/com/expeditors/households/HouseholdCalculator.java:146-150 | the age field fails with a number-format error exactly when `parseInt` rejects it, fails with the negative-age error exactly for a negative value, and otherwise gives the parsed `int` |
| LineParser.AgeOfExamples | src/main/java/com/expeditors/households/HouseholdCalculator.java:146-150 | `25` and `0` are accepted, `-5` is a negative age, `2x` a number-format error |
| LineParser.ParseRecord | src/main/java/com/expeditors/households/HouseholdCalculator.java:128-152 | `parseLine` as a value: invalid record below six tokens, else the six fields mapped to a person or the age error (characterized by `ParseRecordInvalid`, `ParseRecordSuccess`) |
| LineParser.ParseRecordInvalid | src/main/java/com/expeditors/households/HouseholdCalculator.java:138-140 | a line fails with `Invalid record at line n`, carrying its own line number, exactly when it has fewer than six quoted tokens |
| LineParser.ParseRecordLineNumber | src/main/java/com/expeditors/households/HouseholdCalculator.java:128-152 | the line number matters only for the invalid-record error |
| LineParser.ParseRecordIgnoresExtraTokens | src/main/java/com/expeditors/households/HouseholdCalculator.java:134 | tokens after the sixth are ignored |
| LineParser.ParseRecordSuccess | src/main/java/com/expeditors/households/HouseholdCalculator.java:142-151 | a parsed person has tokens 0 and 1 as names, the normalized tokens 2-4 as address and token 5 as a non-negative `int` age |
| LineParser.ParseRenderedRecord | src/main/java/com/expeditors/households/HouseholdCalculator.java:128-152 | parsing a rendered six-field record yields the record built from those fields |
| LineParser.ParseShortRecord | src/main/java/com/expeditors/households/HouseholdCalculator.java:138-140 | a rendered record with fewer than six fields is rejected as invalid at its line |
| LineParser.ParseRecordExample | src/test/java/com/expeditors/households/HouseholdCalculatorTest.java:60-76 | the line for John Doe, `123 Main St.`, Anytown, CA, 25 parses to that person at `123 Main St` |
| LineParser.NormalizedAddressShape | src/main/java/com/expeditors/households/HouseholdCalculator.java:161-167 | a normalized address line has no separators, the city is already capitalized and the state has no lower-case letter |
| LineParser.NormalizedAddressIgnoresCase | src/main/java/com/expeditors/households/HouseholdCalculator.java:161-167 | the letter case of the three raw components does not affect the normalized address |
| LineParser.NormalizedAddressExample | src/test/java/com/expeditors/households/HouseholdCalculatorTest.java:78-88 | `123 Main St.`, `Anytown`, `CA` normalize to `123 Main St`, `Anytown`, `CA` |
| LineParser.ParseAddress | src/main/java/com/expeditors/households/HouseholdCalculator.java:161-167 | returns a fresh, complete Address whose components are the unified line, the capitalized city and the upper-cased state |
| LineParser.BuildIndividual | src/main/java/com/expeditors/households/HouseholdCalculator.java:142-151 | from six fields, fails with the age error exactly when the age field is rejected, otherwise returns a fresh complete Individual holding those names, the normalized address and the age |
| LineParser.SetParsedAge | src/main/java/com/expeditors/households/HouseholdCalculator.java:146-150 | stores the parsed age or reports the age error, leaving names and address unchanged |
| LineParser.ParseLine | src/main/java/com/expeditors/households/HouseholdCalculator.java:128-152 | fails exactly when the record does, with the same error; on success returns a fresh complete Individual whose value is the parsed record |
| Households.Insert | src/main/java/com/expeditors/households/HouseholdCalculator.java:83-88 | after adding a person, their address is a key holding them, and the key order only grows |
| Households.InsertGet | src/main/java/com/expeditors/households/HouseholdCalculator.java:83-88 | adding a person adds exactly that person at their address and changes no other household |
| Households.InsertOrder | src/main/java/com/expeditors/households/HouseholdCalculator.java:86-88 | a new address is appended to the key order; a known one leaves the order unchanged |
| Households.InsertValid | src/main/java/com/expeditors/households/HouseholdCalculator.java:83-88 | adding keeps the index well formed: no duplicate keys, order and map agree, no empty household, everyone lives at their key |
| Households.InsertAllGet | src/main/java/com/expeditors/households/HouseholdCalculator.java:79-92 | after adding a sequence, each household holds exactly its old occupants plus the added people at that address |
| Households.InsertAllKeys | src/main/java/com/expeditors/households/HouseholdCalculator.java:79-92 | an address is a key afterwards exactly when it was one before or someone added lives there |
| Households.AtAddressMembers | src/main/java/com/expeditors/households/HouseholdCalculator.java:83-84 | a person is among those filed at their address exactly when they are in the sequence |
| Households.Group | src/main/java/com/expeditors/households/HouseholdCalculator.java:79-92 | the loop over parsed lines in order: a person is inserted, an error is listed and the line skipped (closed form in `GroupIsInsertAll`) |
| Households.ImportAll | src/main/java/com/expeditors/households/HouseholdCalculator.java:79-92 | the loop over the lines, numbering them from the given counter (`OutcomesAt`, `ImportAllContents`) |
| Households.Import | src/main/java/com/expeditors/households/HouseholdCalculator.java:68-96 | `importCSVData`: numbering from 1, a skipped header counted, an empty file with a header changing nothing |
| Households.GroupIsInsertAll | src/main/java/com/expeditors/households/HouseholdCalculator.java:79-92 | processing the outcomes in order equals adding all successes and listing all failures in order |
| Households.SuccessesPlusFailures | src/main/java/com/expeditors/households/HouseholdCalculator.java:79-92 | every line yields exactly one success or one error |
| Households.FailuresMembers | src/main/java/com/expeditors/households/HouseholdCalculator.java:89-91 | an error is reported exactly when some line produced it |
| Households.OutcomesAt | src/main/java/com/expeditors/households/HouseholdCalculator.java:79-81 | line i is parsed with line number lineNumber + i, so the counter advances on every line, failing or not |
| Households.InvalidRecordErrors | src/main/java/com/expeditors/households/HouseholdCalculator.java:79-91 | `Invalid record at line m` is reported exactly when line m exists and has fewer than six quoted tokens |
| Households.ImportedIndividuals | src/main/java/com/expeditors/households/HouseholdCalculator.java:79-92 | starting empty, a person is in the household at their address exactly when some line parses to them |
| Households.ImportCounts | src/main/java/com/expeditors/households/HouseholdCalculator.java:79-92 | imported people plus reported errors equal the number of lines |
| Households.InsertTotal | src/main/java/com/expeditors/households/HouseholdCalculator.java:83-88 | adding a person stores exactly one more occupant over all households |
| Households.InsertAllTotal | src/main/java/com/expeditors/households/HouseholdCalculator.java:79-92 | adding a sequence stores exactly its length more occupants over all households |
| Households.ImportTotal | src/main/java/com/expeditors/households/HouseholdCalculator.java:79-92 | the occupants summed over all households grow by exactly the number of lines that parse |
| Households.ImportAccountsForEveryLine | src/main/java/com/expeditors/households/HouseholdCalculator.java:79-92 | from no households, occupants stored plus errors reported equal the number of lines |
| Households.ImportAllContents | src/main/java/com/expeditors/households/HouseholdCalculator.java:79-92 | an import keeps the index well formed, only extends the key order, and adds to each household exactly the parsed people at its address |
| Households.ImportFailingLine | src/main/java/com/expeditors/households/HouseholdCalculator.java:89-91 | a failing line leaves the households unchanged and reports its error |
| Households.TwoAddresses | src/main/java/com/expeditors/households/HouseholdCalculator.java:79-92 | two good lines at different addresses make two one-person households in line order |
| Households.SameAddress | src/main/java/com/expeditors/households/HouseholdCalculator.java:83-88 | two good lines at one address make one household holding both |
| Households.ImportTestFile | src/test/java/com/expeditors/households/HouseholdCalculatorTest.java:41-48 | the two-line test file imports to two households and no errors |
| Households.HouseholdCalculator.constructor | src/main/java/com/expeditors/households/HouseholdCalculator.java:31 | a new calculator has no households |
| Households.HouseholdCalculator.Add | src/main/java/com/expeditors/households/HouseholdCalculator.java:83-88 | filing a complete individual changes the households exactly as `Insert` of its value |
| Households.HouseholdCalculator.ImportLine | src/main/java/com/expeditors/households/HouseholdCalculator.java:80-91 | a line that fails leaves the households unchanged and returns its error; a good line is filed and nothing is returned |
| Households.HouseholdCalculator.ImportFrom | src/main/java/com/expeditors/households/HouseholdCalculator.java:79-92 | the read loop ends with the households and error list that `ImportAll` specifies for the lines and starting line number |
| Households.HouseholdCalculator.ImportLines | src/main/java/com/expeditors/households/HouseholdCalculator.java:68-96 | `importCSVData` on the given lines: the header, if skipped, still counts as line 1 and an empty input stops at once; the result matches `Import` |

## Left out

- File input is not modelled. `importCSVData` receives the file's lines as a sequence. A read failure and the `RuntimeException("Failed to read input file.")` it raises are left out, because they are I/O.
- Error printing is not modelled. Instead of printing `Error: Unable to parse record: …`, `importCSVData` returns the reported errors in line order, and `LineParser.Message` gives each message text.
- Parsing is done up front. The import specification `ImportAll` parses every line before grouping. This is equivalent because parsing a line touches no shared state; the imperative `ImportFrom` loop parses one line at a time, as the code does.
- `main`, `printHouseHolds`, `AdultAge` and `getHouseholds` are left out, because they only print or return a reference.
- The regular expression engine is not modelled. The pattern `"([^"]*)"(?:,|$)` is modelled by a direct scanner (`FindMatch`) that implements its leftmost-match semantics.
- A `char` here is a Unicode scalar value, while Java strings are sequences of UTF-16 code units. `Strings.StringHash` and `Strings.CompareStrings` therefore agree with Java only for text in the Basic Multilingual Plane, where each char is one code unit; for a supplementary char such as U+1F600, Java hashes and compares its surrogate pair instead. Case mapping covers ASCII letters only; locale-dependent and non-ASCII mappings of `toUpperCase`/`toLowerCase` are left out.
- Integers.ParseInt: accepts ASCII digits `0`-`9` only. Java's `Integer.parseInt` also accepts other Unicode decimal digits (such as fullwidth or Arabic-Indic ones) through `Character.digit`; an age written with those is reported here as a number-format error.
- Each household's `PriorityQueue<Individual>` is modelled as a multiset of `Person` values. Heap order, iteration order and the aliasing between the map's queues and the individuals are not captured. `compareTo`, which orders the queue, is modelled and proved a total preorder.
- Map keys are `AddressKey` values rather than `Address` objects. `Addresses.EqualsIffSameKey` and `Addresses.HashConsistent` justify this for the complete addresses that parsing produces.
- A `null` field of `Individual` makes `compareTo` throw `NullPointerException`. This is not modelled: `CompareTo` requires the names it dereferences to be present (`ComparableWith`), which every parsed individual satisfies.
- `InvalidInputDataException` and `NumberFormatException` are modelled as the `ParseError` datatype rather than as exception classes.
- The line counter is an unbounded integer. Overflow after 2^31 lines is not modelled.
- `HouseholdCalculator.ImportLine` takes the outcome of the line as a ghost parameter. The parameter only names the outcome in the contract; it does not change what the method computes.
