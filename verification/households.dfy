/**
 * The household index of `HouseholdCalculator` and the import loop that
 * fills it: every line of the input is parsed, and each parsed individual
 * joins the household of its (normalized) address. A line that does not
 * parse is reported and skipped.
 */
module Households {
  import opened Wrappers
  import opened Addresses
  import opened Individuals
  import opened LineParser
  import opened TextNormalizer

  // ---------------------------------------------------------------------------
  // The index as a value

  /**
   * The `LinkedHashMap<Address, Collection<Individual>>`: the addresses in the
   * order they were first inserted, and the occupants stored under each.
   * Keys compare as `Address.equals` does, that is by their three fields,
   * so an address is keyed by its `AddressKey`.
   */
  datatype Index = Index(order: seq<AddressKey>, members: map<AddressKey, multiset<Person>>)

  const Empty: Index := Index([], map[])

  predicate NoDuplicates(s: seq<AddressKey>)
  {
    forall i, j :: 0 <= i < j < |s| ==> s[i] != s[j]
  }

  /**
   * The shape the import keeps: each key once in the insertion order and
   * only the keys of the map there, no empty household, and every occupant
   * stored under its own address.
   */
  predicate Valid(ix: Index)
  {
    NoDuplicates(ix.order) &&
    (forall k :: k in ix.members ==> k in ix.order) &&
    (forall i :: 0 <= i < |ix.order| ==> ix.order[i] in ix.members) &&
    (forall k :: k in ix.members ==> ix.members[k] != multiset{}) &&
    (forall k, p :: k in ix.members && p in ix.members[k] ==> p.address == k)
  }

  /** The occupants stored under `k`: none when `k` is not a key. */
  function Get(ix: Index, k: AddressKey): multiset<Person>
  {
    if k in ix.members then ix.members[k] else multiset{}
  }

  /**
   * Lines 83-88 of the import loop: `getOrDefault` a new queue, add the
   * individual, and `put` the queue when the address was not a key yet.
   */
  function Insert(ix: Index, p: Person): (r: Index)
    ensures p.address in r.members && p in r.members[p.address]
    ensures ix.order <= r.order
  {
    var individuals := Get(ix, p.address) + multiset{p};
    if p.address in ix.members then Index(ix.order, ix.members[p.address := individuals])
    else Index(ix.order + [p.address], ix.members[p.address := individuals])
  }

  /** Inserting adds the individual to its own household and to no other one. */
  lemma InsertGet(ix: Index, p: Person, k: AddressKey)
    ensures Get(Insert(ix, p), k) == Get(ix, k) + (if k == p.address then multiset{p} else multiset{})
  {
  }

  /** A new address is appended to the insertion order; a known one leaves the order alone. */
  lemma InsertOrder(ix: Index, p: Person)
    ensures Insert(ix, p).order == if p.address in ix.members then ix.order else ix.order + [p.address]
  {
  }

  lemma InsertValid(ix: Index, p: Person)
    requires Valid(ix)
    ensures Valid(Insert(ix, p))
  {
    InsertKeepsOrder(ix, p);
    InsertKeepsOccupants(ix, p);
  }

  /** The insertion order still lists each key of the map once. */
  lemma InsertKeepsOrder(ix: Index, p: Person)
    requires NoDuplicates(ix.order)
    requires forall k :: k in ix.members ==> k in ix.order
    requires forall i :: 0 <= i < |ix.order| ==> ix.order[i] in ix.members
    ensures var r := Insert(ix, p);
      NoDuplicates(r.order) &&
      (forall k :: k in r.members ==> k in r.order) &&
      (forall i :: 0 <= i < |r.order| ==> r.order[i] in r.members)
  {
    var r := Insert(ix, p);
    if p.address in ix.members {
      assert r.order == ix.order && r.members.Keys == ix.members.Keys;
    } else {
      assert r.order == ix.order + [p.address];
      assert p.address !in ix.order;
    }
  }

  /** Every household is still non-empty and holds only individuals at its address. */
  lemma InsertKeepsOccupants(ix: Index, p: Person)
    requires forall k :: k in ix.members ==> ix.members[k] != multiset{}
    requires forall k, q :: k in ix.members && q in ix.members[k] ==> q.address == k
    ensures var r := Insert(ix, p);
      (forall k :: k in r.members ==> r.members[k] != multiset{}) &&
      (forall k, q :: k in r.members && q in r.members[k] ==> q.address == k)
  {
    var r := Insert(ix, p);
    forall k | k in r.members ensures r.members[k] != multiset{} && forall q :: q in r.members[k] ==> q.address == k {
      InsertGet(ix, p, k);
    }
  }

  /** Inserting a sequence of individuals one after another. */
  function InsertAll(ix: Index, ps: seq<Person>): (r: Index)
    ensures ix.order <= r.order
    decreases |ps|
  {
    if ps == [] then ix else InsertAll(Insert(ix, ps[0]), ps[1..])
  }

  /** The individuals of `ps` whose address is `k`, in order. */
  function AtAddress(ps: seq<Person>, k: AddressKey): (r: seq<Person>)
    ensures |r| <= |ps|
  {
    if ps == [] then []
    else (if ps[0].address == k then [ps[0]] else []) + AtAddress(ps[1..], k)
  }

  /** After inserting `ps`, a household holds what it held before plus the individuals of `ps` at its address. */
  lemma {:induction false} InsertAllGet(ix: Index, ps: seq<Person>, k: AddressKey)
    ensures Get(InsertAll(ix, ps), k) == Get(ix, k) + multiset(AtAddress(ps, k))
    decreases |ps|
  {
    if ps != [] {
      InsertGet(ix, ps[0], k);
      InsertAllGet(Insert(ix, ps[0]), ps[1..], k);
      assert AtAddress(ps, k) == (if ps[0].address == k then [ps[0]] else []) + AtAddress(ps[1..], k);
    }
  }

  lemma {:induction false} InsertAllValid(ix: Index, ps: seq<Person>)
    requires Valid(ix)
    ensures Valid(InsertAll(ix, ps))
    decreases |ps|
  {
    if ps != [] {
      InsertValid(ix, ps[0]);
      InsertAllValid(Insert(ix, ps[0]), ps[1..]);
    }
  }

  /** An address is a key afterwards exactly when it was one before or one of `ps` lives there. */
  lemma InsertAllKeys(ix: Index, ps: seq<Person>, k: AddressKey)
    requires Valid(ix)
    ensures k in InsertAll(ix, ps).members <==> k in ix.members || AtAddress(ps, k) != []
  {
    InsertAllValid(ix, ps);
    InsertAllGet(ix, ps, k);
    if AtAddress(ps, k) != [] {
      assert AtAddress(ps, k)[0] in multiset(AtAddress(ps, k));
    }
  }

  lemma {:induction false} AtAddressMembers(ps: seq<Person>, p: Person)
    ensures p in multiset(AtAddress(ps, p.address)) <==> p in ps
  {
    if ps != [] {
      AtAddressMembers(ps[1..], p);
      assert ps == [ps[0]] + ps[1..];
    }
  }

  /** The occupants summed over the households listed in `keys`. */
  function Occupants(ix: Index, keys: seq<AddressKey>): nat
    decreases |keys|
  {
    if keys == [] then 0 else Occupants(ix, keys[..|keys| - 1]) + |Get(ix, keys[|keys| - 1])|
  }

  /** The number of individuals stored in all households together. */
  function TotalOccupants(ix: Index): nat
  {
    Occupants(ix, ix.order)
  }

  /** Inserting adds one occupant to the listed households exactly when its address is listed (once). */
  lemma {:induction false} OccupantsInsert(ix: Index, p: Person, keys: seq<AddressKey>)
    requires NoDuplicates(keys)
    ensures Occupants(Insert(ix, p), keys) == Occupants(ix, keys) + (if p.address in keys then 1 else 0)
    decreases |keys|
  {
    if keys != [] {
      var init, last := keys[..|keys| - 1], keys[|keys| - 1];
      assert keys == init + [last];
      assert NoDuplicates(init);
      OccupantsInsert(ix, p, init);
      InsertGet(ix, p, last);
      if last == p.address {
        assert p.address !in init;
      }
    }
  }

  /** Inserting an individual stores exactly one more occupant in total. */
  lemma InsertTotal(ix: Index, p: Person)
    requires Valid(ix)
    ensures TotalOccupants(Insert(ix, p)) == TotalOccupants(ix) + 1
  {
    var r := Insert(ix, p);
    InsertOrder(ix, p);
    OccupantsInsert(ix, p, ix.order);
    if p.address in ix.members {
      assert p.address in ix.order;
    } else {
      assert p.address !in ix.order;
      assert r.order[..|r.order| - 1] == ix.order;
      InsertGet(ix, p, p.address);
    }
  }

  /** Inserting a sequence stores exactly its length more occupants in total. */
  lemma {:induction false} InsertAllTotal(ix: Index, ps: seq<Person>)
    requires Valid(ix)
    ensures TotalOccupants(InsertAll(ix, ps)) == TotalOccupants(ix) + |ps|
    decreases |ps|
  {
    if ps != [] {
      InsertTotal(ix, ps[0]);
      InsertValid(ix, ps[0]);
      InsertAllTotal(Insert(ix, ps[0]), ps[1..]);
    }
  }

  // ---------------------------------------------------------------------------
  // Importing lines

  /** The index after an import, and the errors reported, in line order. */
  datatype Imported = Imported(index: Index, errors: seq<ParseError>)

  /** What one line parses to. */
  type Outcome = Result<Person, ParseError>

  /** `f` applied to each line and its number, counting from `lineNumber`. */
  function MapLines<T>(f: (string, int) -> T, lines: seq<string>, lineNumber: int): (r: seq<T>)
    ensures |r| == |lines|
    decreases |lines|
  {
    if lines == [] then [] else [f(lines[0], lineNumber)] + MapLines(f, lines[1..], lineNumber + 1)
  }

  lemma {:induction false} MapLinesAt<T>(f: (string, int) -> T, lines: seq<string>, lineNumber: int, i: int)
    requires 0 <= i < |lines|
    ensures MapLines(f, lines, lineNumber)[i] == f(lines[i], lineNumber + i)
    decreases |lines|
  {
    if i > 0 {
      MapLinesAt(f, lines[1..], lineNumber + 1, i - 1);
      assert lines[1..][i - 1] == lines[i];
    }
  }

  /** What each line parses to under its own number, counting from `lineNumber`. */
  function Outcomes(lines: seq<string>, lineNumber: int): (r: seq<Outcome>)
    ensures |r| == |lines|
  {
    MapLines(ParseRecord, lines, lineNumber)
  }

  /** The outcome of line `i` is what that line parses to under its own number. */
  lemma OutcomesAt(lines: seq<string>, lineNumber: int, i: int)
    requires 0 <= i < |lines|
    ensures Outcomes(lines, lineNumber)[i] == ParseRecord(lines[i], lineNumber + i)
  {
    MapLinesAt(ParseRecord, lines, lineNumber, i);
  }

  /**
   * The body of the import loop over the outcomes, in line order: an
   * individual is inserted; an error is reported and the line skipped.
   */
  function Group(ix: Index, os: seq<Outcome>): Imported
    decreases |os|
  {
    if os == [] then Imported(ix, [])
    else match os[0]
      case Failure(e) =>
        var rest := Group(ix, os[1..]);
        Imported(rest.index, [e] + rest.errors)
      case Success(p) => Group(Insert(ix, p), os[1..])
  }

  /**
   * The import loop over `lines`, the first of which has number
   * `lineNumber`: the counter advances on every line, parsed or not.
   * Parsing has no effect, so each line may as well be parsed up front.
   */
  function ImportAll(ix: Index, lines: seq<string>, lineNumber: int): Imported
  {
    Group(ix, Outcomes(lines, lineNumber))
  }

  /**
   * `importCSVData` over the lines of the file: numbering starts at 1, and a
   * skipped header line is counted; an empty file with a header to skip
   * changes nothing.
   */
  function Import(ix: Index, lines: seq<string>, skipHeader: bool): Imported
  {
    if !skipHeader then ImportAll(ix, lines, 1)
    else if lines == [] then Imported(ix, [])
    else ImportAll(ix, lines[1..], 2)
  }

  /** The individuals among the outcomes, in order. */
  function Successes(os: seq<Outcome>): (r: seq<Person>)
    ensures |r| <= |os|
  {
    if os == [] then []
    else (if os[0].Success? then [os[0].value] else []) + Successes(os[1..])
  }

  /** The errors among the outcomes, in order. */
  function Failures(os: seq<Outcome>): (r: seq<ParseError>)
    ensures |r| <= |os|
  {
    if os == [] then []
    else (if os[0].Failure? then [os[0].error] else []) + Failures(os[1..])
  }

  /** How the first outcome contributes to the two lists. */
  lemma FirstOutcome(os: seq<Outcome>, o: Outcome)
    requires os != [] && os[0] == o
    ensures o.Failure? ==> Successes(os) == Successes(os[1..]) && Failures(os) == [o.error] + Failures(os[1..])
    ensures o.Success? ==> Successes(os) == [o.value] + Successes(os[1..]) && Failures(os) == Failures(os[1..])
  {
  }

  /** How the first outcome is grouped. */
  lemma GroupStep(ix: Index, os: seq<Outcome>, o: Outcome)
    requires os != [] && os[0] == o
    ensures o.Failure? ==> Group(ix, os) == Imported(Group(ix, os[1..]).index, [o.error] + Group(ix, os[1..]).errors)
    ensures o.Success? ==> Group(ix, os) == Group(Insert(ix, o.value), os[1..])
  {
  }

  /**
   * Grouping the outcomes as the loop does equals inserting the parsed
   * individuals in line order and listing the errors in line order.
   */
  lemma {:induction false} GroupIsInsertAll(ix: Index, os: seq<Outcome>)
    ensures Group(ix, os) == Imported(InsertAll(ix, Successes(os)), Failures(os))
    decreases |os|
  {
    if os != [] {
      FirstOutcome(os, os[0]);
      match os[0]
      case Failure(e) =>
        GroupIsInsertAll(ix, os[1..]);
      case Success(p) =>
        GroupIsInsertAll(Insert(ix, p), os[1..]);
    }
  }

  /** Every line is either imported or reported, never both and never neither. */
  lemma {:induction false} SuccessesPlusFailures(os: seq<Outcome>)
    ensures |Successes(os)| + |Failures(os)| == |os|
  {
    if os != [] {
      SuccessesPlusFailures(os[1..]);
    }
  }

  lemma {:induction false} SuccessesMembers(os: seq<Outcome>, p: Person)
    ensures p in Successes(os) <==> exists i :: 0 <= i < |os| && os[i] == Success(p)
  {
    if os != [] {
      SuccessesMembers(os[1..], p);
      if exists i :: 0 <= i < |os| && os[i] == Success(p) {
        var i :| 0 <= i < |os| && os[i] == Success(p);
        if i > 0 {
          assert os[1..][i - 1] == Success(p);
        }
      }
      if p in Successes(os[1..]) {
        var i :| 0 <= i < |os| - 1 && os[1..][i] == Success(p);
        assert os[i + 1] == Success(p);
      }
    }
  }

  lemma {:induction false} FailuresMembers(os: seq<Outcome>, e: ParseError)
    ensures e in Failures(os) <==> exists i :: 0 <= i < |os| && os[i] == Failure(e)
  {
    if os != [] {
      FailuresMembers(os[1..], e);
      if exists i :: 0 <= i < |os| && os[i] == Failure(e) {
        var i :| 0 <= i < |os| && os[i] == Failure(e);
        if i > 0 {
          assert os[1..][i - 1] == Failure(e);
        }
      }
      if e in Failures(os[1..]) {
        var i :| 0 <= i < |os| - 1 && os[1..][i] == Failure(e);
        assert os[i + 1] == Failure(e);
      }
    }
  }

  /** A line reports an invalid record under its own number only, and only when it has fewer than six fields. */
  lemma InvalidRecordOfLine(line: string, lineNumber: int, m: int)
    ensures ParseRecord(line, lineNumber) == Failure(InvalidRecord(m)) <==>
      m == lineNumber && |QuotedTokens(line)| < InputFormatRecordCount
  {
    ParseRecordInvalid(line, lineNumber);
    if |QuotedTokens(line)| >= InputFormatRecordCount {
      AgeOfCases(QuotedTokens(line)[5]);
    }
  }

  /**
   * The invalid-record errors name exactly the lines, by their number, on
   * which fewer than six quoted fields were found.
   */
  lemma InvalidRecordErrors(ix: Index, lines: seq<string>, lineNumber: int, m: int)
    ensures InvalidRecord(m) in ImportAll(ix, lines, lineNumber).errors <==>
      lineNumber <= m < lineNumber + |lines| && |QuotedTokens(lines[m - lineNumber])| < InputFormatRecordCount
  {
    GroupIsInsertAll(ix, Outcomes(lines, lineNumber));
    if InvalidRecord(m) in Failures(Outcomes(lines, lineNumber)) {
      InvalidRecordErrorsSound(lines, lineNumber, m);
    }
    if lineNumber <= m < lineNumber + |lines| && |QuotedTokens(lines[m - lineNumber])| < InputFormatRecordCount {
      InvalidRecordErrorsComplete(lines, lineNumber, m);
    }
  }

  lemma InvalidRecordErrorsSound(lines: seq<string>, lineNumber: int, m: int)
    requires InvalidRecord(m) in Failures(Outcomes(lines, lineNumber))
    ensures lineNumber <= m < lineNumber + |lines| && |QuotedTokens(lines[m - lineNumber])| < InputFormatRecordCount
  {
    var os := Outcomes(lines, lineNumber);
    FailuresMembers(os, InvalidRecord(m));
    var i :| 0 <= i < |os| && os[i] == Failure(InvalidRecord(m));
    InvalidOutcome(lines, lineNumber, i, m);
  }

  lemma InvalidRecordErrorsComplete(lines: seq<string>, lineNumber: int, m: int)
    requires lineNumber <= m < lineNumber + |lines| && |QuotedTokens(lines[m - lineNumber])| < InputFormatRecordCount
    ensures InvalidRecord(m) in Failures(Outcomes(lines, lineNumber))
  {
    var i := m - lineNumber;
    InvalidOutcome(lines, lineNumber, i, m);
    FailureListed(Outcomes(lines, lineNumber), i, InvalidRecord(m));
  }

  lemma FailureListed(os: seq<Outcome>, i: int, e: ParseError)
    requires 0 <= i < |os| && os[i] == Failure(e)
    ensures e in Failures(os)
  {
    FailuresMembers(os, e);
  }

  /** The outcome of line `i` is an invalid record numbered `m` exactly when `m` is its number and it is short. */
  lemma InvalidOutcome(lines: seq<string>, lineNumber: int, i: int, m: int)
    requires 0 <= i < |lines|
    ensures Outcomes(lines, lineNumber)[i] == Failure(InvalidRecord(m)) <==>
      m == lineNumber + i && |QuotedTokens(lines[i])| < InputFormatRecordCount
  {
    OutcomesAt(lines, lineNumber, i);
    InvalidRecordOfLine(lines[i], lineNumber + i, m);
  }

  /** Starting from no households, an individual is stored exactly when some line parses to it. */
  lemma ImportedIndividuals(lines: seq<string>, lineNumber: int, p: Person)
    ensures var ix := ImportAll(Empty, lines, lineNumber).index;
      p in Get(ix, p.address) <==> exists i :: 0 <= i < |lines| && ParseRecord(lines[i], lineNumber + i) == Success(p)
  {
    var os := Outcomes(lines, lineNumber);
    GroupIsInsertAll(Empty, os);
    InsertAllGet(Empty, Successes(os), p.address);
    AtAddressMembers(Successes(os), p);
    SuccessesMembers(os, p);
    if exists i :: 0 <= i < |lines| && ParseRecord(lines[i], lineNumber + i) == Success(p) {
      var i :| 0 <= i < |lines| && ParseRecord(lines[i], lineNumber + i) == Success(p);
      OutcomesAt(lines, lineNumber, i);
    }
    if p in Successes(os) {
      var i :| 0 <= i < |os| && os[i] == Success(p);
      OutcomesAt(lines, lineNumber, i);
    }
  }

  /** Every line is either imported or reported, never both and never neither. */
  lemma ImportCounts(ix: Index, lines: seq<string>, lineNumber: int)
    ensures |Successes(Outcomes(lines, lineNumber))| + |ImportAll(ix, lines, lineNumber).errors| == |lines|
  {
    GroupIsInsertAll(ix, Outcomes(lines, lineNumber));
    SuccessesPlusFailures(Outcomes(lines, lineNumber));
  }

  /**
   * What an import does to the index: it stays well formed, no household is
   * dropped or moved, and each household gains exactly the individuals
   * parsed from lines at its address.
   */
  lemma ImportAllContents(ix: Index, lines: seq<string>, lineNumber: int, k: AddressKey)
    requires Valid(ix)
    ensures var r := ImportAll(ix, lines, lineNumber).index;
      Valid(r) && ix.order <= r.order &&
      Get(r, k) == Get(ix, k) + multiset(AtAddress(Successes(Outcomes(lines, lineNumber)), k))
  {
    GroupIsInsertAll(ix, Outcomes(lines, lineNumber));
    InsertAllValid(ix, Successes(Outcomes(lines, lineNumber)));
    InsertAllGet(ix, Successes(Outcomes(lines, lineNumber)), k);
  }

  /** An import stores exactly one more occupant for each line that parses. */
  lemma ImportTotal(ix: Index, lines: seq<string>, lineNumber: int)
    requires Valid(ix)
    ensures TotalOccupants(ImportAll(ix, lines, lineNumber).index) ==
      TotalOccupants(ix) + |Successes(Outcomes(lines, lineNumber))|
  {
    GroupIsInsertAll(ix, Outcomes(lines, lineNumber));
    InsertAllTotal(ix, Successes(Outcomes(lines, lineNumber)));
  }

  /** Starting from no households, every line ends up either as a stored occupant or as a reported error. */
  lemma ImportAccountsForEveryLine(lines: seq<string>, lineNumber: int)
    ensures var r := ImportAll(Empty, lines, lineNumber);
      TotalOccupants(r.index) + |r.errors| == |lines|
  {
    ImportTotal(Empty, lines, lineNumber);
    ImportCounts(Empty, lines, lineNumber);
  }

  /** A line that does not parse changes nothing but the error list. */
  lemma ImportFailingLine(ix: Index, line: string, lineNumber: int)
    requires ParseRecord(line, lineNumber).Failure?
    ensures ImportAll(ix, [line], lineNumber) == Imported(ix, [ParseRecord(line, lineNumber).error])
  {
    OutcomesAt([line], lineNumber, 0);
    GroupFailure(ix, Outcomes([line], lineNumber), ParseRecord(line, lineNumber).error);
  }

  lemma GroupFailure(ix: Index, os: seq<Outcome>, e: ParseError)
    requires os == [Failure(e)]
    ensures Group(ix, os) == Imported(ix, [e])
  {
    GroupStep(ix, os, Failure(e));
    assert os[1..] == [];
  }

  /** Two individuals at different addresses form two households of one each, in line order. */
  lemma TwoAddresses(l1: string, l2: string, p1: Person, p2: Person)
    requires ParseRecord(l1, 1) == Success(p1) && ParseRecord(l2, 2) == Success(p2)
    requires p1.address != p2.address
    ensures Import(Empty, [l1, l2], false) ==
      Imported(Index([p1.address, p2.address], map[p1.address := multiset{p1}, p2.address := multiset{p2}]), [])
  {
    InsertTwo(p1, p2);
    ImportTwo(l1, l2, p1, p2);
  }

  /** Two individuals at the same address share one household. */
  lemma SameAddress(l1: string, l2: string, p1: Person, p2: Person)
    requires ParseRecord(l1, 1) == Success(p1) && ParseRecord(l2, 2) == Success(p2)
    requires p1.address == p2.address
    ensures Import(Empty, [l1, l2], false) ==
      Imported(Index([p1.address], map[p1.address := multiset{p1, p2}]), [])
  {
    InsertTwo(p1, p2);
    ImportTwo(l1, l2, p1, p2);
  }

  lemma ImportTwo(l1: string, l2: string, p1: Person, p2: Person)
    requires ParseRecord(l1, 1) == Success(p1) && ParseRecord(l2, 2) == Success(p2)
    ensures Import(Empty, [l1, l2], false) == Imported(Insert(Insert(Empty, p1), p2), [])
  {
    var os := Outcomes([l1, l2], 1);
    OutcomesAt([l1, l2], 1, 0);
    OutcomesAt([l1, l2], 1, 1);
    assert os == [Success(p1), Success(p2)];
    GroupTwo(Empty, os, p1, p2);
  }

  lemma GroupTwo(ix: Index, os: seq<Outcome>, p1: Person, p2: Person)
    requires os == [Success(p1), Success(p2)]
    ensures Group(ix, os) == Imported(Insert(Insert(ix, p1), p2), [])
  {
    GroupStep(ix, os, Success(p1));
    GroupStep(Insert(ix, p1), os[1..], Success(p2));
    assert os[1..][1..] == [];
  }

  lemma InsertTwo(p1: Person, p2: Person)
    ensures p1.address != p2.address ==>
      Insert(Insert(Empty, p1), p2) == Index([p1.address, p2.address], map[p1.address := multiset{p1}, p2.address := multiset{p2}])
    ensures p1.address == p2.address ==>
      Insert(Insert(Empty, p1), p2) == Index([p1.address], map[p1.address := multiset{p1, p2}])
  {
    var a1, a2 := p1.address, p2.address;
    assert multiset{} + multiset{p1} == multiset{p1};
    assert Empty.members[a1 := multiset{p1}] == map[a1 := multiset{p1}];
    var ix1 := Insert(Empty, p1);
    assert ix1 == Index([a1], map[a1 := multiset{p1}]);
    if a1 == a2 {
      assert multiset{p1} + multiset{p2} == multiset{p1, p2};
      assert ix1.members[a1 := multiset{p1, p2}] == map[a1 := multiset{p1, p2}];
    } else {
      assert multiset{} + multiset{p2} == multiset{p2};
      assert [a1] + [a2] == [a1, a2];
    }
  }

  /** A record written in the input format with a valid age parses to an individual with its fields. */
  lemma RenderedIndividual(fs: seq<string>, age: int, lineNumber: int)
    requires |fs| == InputFormatRecordCount && forall i :: 0 <= i < |fs| ==> QuoteFree(fs[i])
    requires AgeOf(fs[5]) == Success(age)
    ensures ParseRecord(RenderRecord(fs), lineNumber) ==
      Success(Person(fs[0], fs[1], NormalizedAddress(fs[2], fs[3], fs[4]), age))
  {
    ParseRenderedRecord(fs, lineNumber);
  }

  /** Two lines parsing to individuals at different addresses make two households and no error. */
  lemma TwoHouseholds(l1: string, l2: string, p1: Person, p2: Person)
    requires ParseRecord(l1, 1) == Success(p1) && ParseRecord(l2, 2) == Success(p2)
    requires p1.address != p2.address
    ensures var r := Import(Empty, [l1, l2], false);
      |r.index.order| == 2 && |r.index.members| == 2 && r.errors == []
  {
    TwoAddresses(l1, l2, p1, p2);
    TwoKeys(p1, p2);
  }

  lemma TwoKeys(p1: Person, p2: Person)
    requires p1.address != p2.address
    ensures |map[p1.address := multiset{p1}, p2.address := multiset{p2}]| == 2
  {
    assert map[p1.address := multiset{p1}, p2.address := multiset{p2}].Keys == {p1.address, p2.address};
  }

  /**
   * The two-line input of the import test in HouseholdCalculatorTest: John Doe in Seattle and
   * Jane Doe in Tacoma make two households and no error.
   */
  lemma ImportTestFile(john: seq<string>, jane: seq<string>)
    requires john == ["John", "Doe", "123 Main St.", "Seattle", "WA", "25"]
    requires jane == ["Jane", "Doe", "456 Elm St.", "Tacoma", "WA", "30"]
    ensures var r := Import(Empty, [RenderRecord(john), RenderRecord(jane)], false);
      |r.index.order| == 2 && |r.index.members| == 2 && r.errors == []
  {
    TestFieldsQuoteFree(john, jane);
    AgeOfExample(john[5], 25);
    AgeOfExample(jane[5], 30);
    CitiesDiffer(john[3], jane[3]);
    RenderedIndividual(john, 25, 1);
    RenderedIndividual(jane, 30, 2);
    var p1 := Person(john[0], john[1], NormalizedAddress(john[2], john[3], john[4]), 25);
    var p2 := Person(jane[0], jane[1], NormalizedAddress(jane[2], jane[3], jane[4]), 30);
    TwoHouseholds(RenderRecord(john), RenderRecord(jane), p1, p2);
  }

  lemma TestFieldsQuoteFree(john: seq<string>, jane: seq<string>)
    requires john == ["John", "Doe", "123 Main St.", "Seattle", "WA", "25"]
    requires jane == ["Jane", "Doe", "456 Elm St.", "Tacoma", "WA", "30"]
    ensures forall i :: 0 <= i < |john| ==> QuoteFree(john[i])
    ensures forall i :: 0 <= i < |jane| ==> QuoteFree(jane[i])
  {
  }

  lemma CitiesDiffer(seattle: string, tacoma: string)
    requires seattle == "Seattle" && tacoma == "Tacoma"
    ensures Capitalized(seattle) != Capitalized(tacoma)
  {
    assert IsWord(seattle) && IsWord(tacoma);
    CapitalizedOneWord(seattle);
    CapitalizedOneWord(tacoma);
  }

  // ---------------------------------------------------------------------------
  // The calculator object

  /** An import that has already reported `acc` and goes on with the outcomes `os` from index `ix`. */
  function Continue(acc: seq<ParseError>, ix: Index, os: seq<Outcome>): Imported
  {
    var rest := Group(ix, os);
    Imported(rest.index, acc + rest.errors)
  }

  lemma ContinueEnds(acc: seq<ParseError>, ix: Index)
    ensures Continue(acc, ix, []) == Imported(ix, acc)
  {
    assert acc + [] == acc;
  }

  lemma ContinueStarts(ix: Index, os: seq<Outcome>)
    ensures Continue([], ix, os) == Group(ix, os)
  {
    assert [] + Group(ix, os).errors == Group(ix, os).errors;
  }

  /** One step of the loop: a line that does not parse adds its error, one that parses its individual. */
  lemma ContinueStep(acc: seq<ParseError>, ix: Index, os: seq<Outcome>, o: Outcome)
    requires os != [] && os[0] == o
    ensures o.Failure? ==> Continue(acc, ix, os) == Continue(acc + [o.error], ix, os[1..])
    ensures o.Success? ==> Continue(acc, ix, os) == Continue(acc, Insert(ix, o.value), os[1..])
  {
  }

  /** The loop invariant is kept by one pass that reported `error` and left the index `ix'`. */
  lemma ContinueAfter(goal: Imported, acc: seq<ParseError>, ix: Index, os: seq<Outcome>, k: int,
                      error: Option<ParseError>, ix': Index, acc': seq<ParseError>)
    requires 0 <= k < |os| && goal == Continue(acc, ix, os[k..])
    requires os[k].Failure? ==> error == Some(os[k].error) && ix' == ix
    requires os[k].Success? ==> error == None && ix' == Insert(ix, os[k].value)
    requires acc' == if error.Some? then acc + [error.value] else acc
    ensures goal == Continue(acc', ix', os[k + 1..])
  {
    ContinueStep(acc, ix, os[k..], os[k]);
    assert os[k..][1..] == os[k + 1..];
  }

  /** `HouseholdCalculator`: the household map, filled by importing lines. */
  class HouseholdCalculator {
    var order: seq<AddressKey>
    var members: map<AddressKey, multiset<Person>>

    /** The household map as a value. */
    function Households(): (ix: Index)
      reads this
      ensures ix.order == order && ix.members == members
    {
      Index(order, members)
    }

    /** A new calculator has no households. */
    constructor ()
      ensures Households() == Empty
    {
      order, members := [], map[];
    }

    /**
     * The insertion step of the import loop: look up the occupants of the
     * individual's address (none when it is new), add the individual, and
     * store the address as a new key when it was not one.
     */
    method Add(ind: Individual)
      requires ind.Complete()
      modifies this
      ensures Households() == Insert(old(Households()), ind.Value())
    {
      var key := ind.address.Key();
      var individuals := if key in members then members[key] else multiset{};
      individuals := individuals + multiset{ind.Value()};
      if key !in members {
        order := order + [key];
      }
      members := members[key := individuals];
    }

    /**
     * One pass of the import loop's body: parse the line under its number
     * and add the individual, or report the error and skip the line.
     */
    method ImportLine(line: string, lineNumber: int, ghost o: Outcome) returns (error: Option<ParseError>)
      requires ParseRecord(line, lineNumber) == o
      modifies this
      ensures o.Failure? ==> error == Some(o.error) && Households() == old(Households())
      ensures o.Success? ==> error == None && Households() == Insert(old(Households()), o.value)
    {
      var r := ParseLine(line, lineNumber);
      if r.Failure? {
        return Some(r.error);
      }
      Add(r.value);
      return None;
    }

    /**
     * The read loop of `importCSVData` over `lines`, the first of which has
     * number `lineNumber`: the counter advances on every line, parsed or not.
     */
    method ImportFrom(lines: seq<string>, lineNumber: int) returns (errors: seq<ParseError>)
      modifies this
      ensures Imported(Households(), errors) == ImportAll(old(Households()), lines, lineNumber)
    {
      var lineCounter := lineNumber;
      var next := 0;
      errors := [];
      ghost var os := Outcomes(lines, lineNumber);
      ghost var goal := Continue([], Households(), os);
      ContinueStarts(Households(), os);
      while next < |lines|
        invariant 0 <= next <= |lines| && lineCounter == lineNumber + next
        invariant goal == Continue(errors, Households(), os[next..])
        decreases |lines| - next
      {
        OutcomesAt(lines, lineNumber, next);
        ghost var before, reported := Households(), errors;
        var error := ImportLine(lines[next], lineCounter, os[next]);
        if error.Some? {
          errors := errors + [error.value];
        }
        ContinueAfter(goal, reported, before, os, next, error, Households(), errors);
        next, lineCounter := next + 1, lineCounter + 1;
      }
      ContinueEnds(errors, Households());
    }

    /**
     * `importCSVData`: numbering starts at 1; a header line to skip is read
     * and counted, and an empty input then imports nothing.
     */
    method ImportLines(lines: seq<string>, skipHeader: bool) returns (errors: seq<ParseError>)
      modifies this
      ensures Imported(Households(), errors) == Import(old(Households()), lines, skipHeader)
    {
      var lineCounter := 1;
      var rest := lines;
      if skipHeader {
        lineCounter := lineCounter + 1;
        if lines == [] {
          return [];
        }
        rest := lines[1..];
      }
      errors := ImportFrom(rest, lineCounter);
    }
  }
}
