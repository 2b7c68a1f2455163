/**
 * Address text normalization (HouseholdCalculator.capitalize and
 * HouseholdCalculator.unifyAddressLineFormat). Each operation has a
 * specification function and a method with the Java word loop that is
 * proved to compute it.
 */
module TextNormalizer {
  import opened Strings

  /** A piece produced by splitting on `\s+`: non-empty, without `\s` characters. */
  predicate IsWord(w: string)
  {
    w != [] && forall i :: 0 <= i < |w| ==> !IsSpace(w[i])
  }

  /** The longest prefix of `t` without `\s` characters. */
  function LeadingWord(t: string): (w: string)
    ensures |w| <= |t| && w == t[..|w|]
    ensures |w| == |t| || IsSpace(t[|w|])
  {
    if t == [] || IsSpace(t[0]) then [] else [t[0]] + LeadingWord(t[1..])
  }

  /** The maximal runs of non-`\s` characters of `t`, in order. */
  function Words(t: string): seq<string>
    decreases |t|
  {
    if t == [] then []
    else if IsSpace(t[0]) then Words(t[1..])
    else
      var w := LeadingWord(t);
      [w] + Words(t[|w|..])
  }

  lemma {:induction false} LeadingWordHasNoSpace(t: string)
    ensures forall i :: 0 <= i < |LeadingWord(t)| ==> !IsSpace(LeadingWord(t)[i])
  {
    if t != [] && !IsSpace(t[0]) {
      LeadingWordHasNoSpace(t[1..]);
      assert LeadingWord(t) == [t[0]] + LeadingWord(t[1..]);
    }
  }

  /** Every piece is a word. */
  lemma {:induction false} WordsAreWords(t: string)
    ensures forall i :: 0 <= i < |Words(t)| ==> IsWord(Words(t)[i])
    decreases |t|
  {
    if t != [] {
      if IsSpace(t[0]) {
        WordsAreWords(t[1..]);
      } else {
        var w := LeadingWord(t);
        LeadingWordHasNoSpace(t);
        WordsAreWords(t[|w|..]);
      }
    }
  }

  /**
   * `line.trim().split("\\s+")`. The trimmed text neither starts nor ends with a
   * `\s` character, so Java's split yields exactly its words; for a blank line it
   * yields the one empty string.
   */
  function SplitWords(s: string): (ws: seq<string>)
    ensures |ws| > 0
  {
    var t := Trim(s);
    if t == [] then [""] else Words(t)
  }

  /** The words separated by single spaces. */
  function Join(ws: seq<string>): string
  {
    if ws == [] then "" else if |ws| == 1 then ws[0] else ws[0] + " " + Join(ws[1..])
  }

  /** What a `StringBuilder` holds after appending each word followed by one space. */
  function JoinTerminated(ws: seq<string>): string
  {
    if ws == [] then "" else JoinTerminated(ws[..|ws| - 1]) + ws[|ws| - 1] + " "
  }

  /** The first character upper-cased and the rest lower-cased (the empty word stays empty). */
  function CapitalizeWord(w: string): (r: string)
    ensures |r| == |w|
  {
    if w == [] then [] else [ToUpper(w[0])] + LowerAll(w[1..])
  }

  function CapitalizeWords(ws: seq<string>): (r: seq<string>)
    ensures |r| == |ws|
  {
    seq(|ws|, i requires 0 <= i < |ws| => CapitalizeWord(ws[i]))
  }

  /** The shape `capitalize` gives each word: no lower-case first letter, no upper-case letter after it. */
  predicate IsCapitalizedWord(w: string)
  {
    IsWord(w) && !IsLower(w[0]) && forall i :: 1 <= i < |w| ==> !IsUpper(w[i])
  }

  /** `capitalize(line)`: the words of the trimmed line, each capitalized, separated by single spaces. */
  function Capitalized(line: string): string
  {
    Join(CapitalizeWords(SplitWords(line)))
  }

  // ---------------------------------------------------------------------------
  // Words, Join and their inverse relationship

  lemma {:induction false} LeadingWordOf(w: string, rest: string)
    requires forall i :: 0 <= i < |w| ==> !IsSpace(w[i])
    requires rest == [] || IsSpace(rest[0])
    ensures LeadingWord(w + rest) == w
  {
    if w != [] {
      assert (w + rest)[1..] == w[1..] + rest;
      LeadingWordOf(w[1..], rest);
    } else {
      assert w + rest == rest;
    }
  }

  lemma {:induction false} JoinSnoc(ws: seq<string>, w: string)
    requires ws != []
    ensures Join(ws + [w]) == Join(ws) + " " + w
  {
    if |ws| == 1 {
      assert ws + [w] == [ws[0], w];
    } else {
      assert (ws + [w])[1..] == ws[1..] + [w];
      JoinSnoc(ws[1..], w);
    }
  }

  /** The builder loop's text is the joined words plus one trailing space. */
  lemma {:induction false} JoinTerminatedIsJoin(ws: seq<string>)
    requires ws != []
    ensures JoinTerminated(ws) == Join(ws) + " "
  {
    if |ws| > 1 {
      var init := ws[..|ws| - 1];
      JoinTerminatedIsJoin(init);
      JoinSnoc(init, ws[|ws| - 1]);
      assert init + [ws[|ws| - 1]] == ws;
    }
  }

  /** Splitting joined words gives the words back. */
  lemma {:induction false} WordsOfJoin(ws: seq<string>)
    requires forall i :: 0 <= i < |ws| ==> IsWord(ws[i])
    ensures Words(Join(ws)) == ws
  {
    if |ws| == 1 {
      LeadingWordOf(ws[0], []);
      assert ws[0] + [] == ws[0];
      assert ws[0][|ws[0]|..] == [];
    } else if |ws| > 1 {
      var rest := " " + Join(ws[1..]);
      assert Join(ws) == ws[0] + rest;
      LeadingWordOf(ws[0], rest);
      assert Join(ws)[|ws[0]|..] == rest;
      assert rest[1..] == Join(ws[1..]);
      WordsOfJoin(ws[1..]);
    }
  }

  /** Every character of a word of `t` is a character of `t`. */
  lemma {:induction false} WordsChars(t: string, c: char)
    requires c !in t
    ensures forall i :: 0 <= i < |Words(t)| ==> c !in Words(t)[i]
    decreases |t|
  {
    if t != [] {
      if IsSpace(t[0]) {
        WordsChars(t[1..], c);
      } else {
        var w := LeadingWord(t);
        WordsChars(t[|w|..], c);
      }
    }
  }

  lemma SplitWordsChars(s: string, c: char)
    requires c !in s
    ensures forall i :: 0 <= i < |SplitWords(s)| ==> c !in SplitWords(s)[i]
  {
    var t := Trim(s);
    TrimFacts(s);
    if t != [] {
      WordsChars(t, c);
    }
  }

  /** A character of the joined text is a separator space or a character of a word. */
  lemma {:induction false} JoinChars(ws: seq<string>, c: char)
    requires c != ' '
    requires forall i :: 0 <= i < |ws| ==> c !in ws[i]
    ensures c !in Join(ws)
  {
    if |ws| > 1 {
      JoinChars(ws[1..], c);
    }
  }

  // ---------------------------------------------------------------------------
  // The ends of the text

  /** A text that does not end in `\s` has words; the last one ends the text, and the first one starts it unless it starts with `\s`. */
  lemma {:induction false} WordsEdges(t: string)
    requires t != [] && !IsSpace(t[|t| - 1])
    ensures Words(t) != [] && Words(t)[0] != [] && Words(t)[|Words(t)| - 1] != []
    ensures !IsSpace(t[0]) ==> Words(t)[0][0] == t[0]
    ensures var last := Words(t)[|Words(t)| - 1]; last[|last| - 1] == t[|t| - 1]
    decreases |t|
  {
    WordsAreWords(t);
    if IsSpace(t[0]) {
      WordsEdges(t[1..]);
    } else {
      var w := LeadingWord(t);
      if |w| < |t| {
        var rest := t[|w|..];
        assert rest[0] == t[|w|] && rest[|rest| - 1] == t[|t| - 1];
        WordsEdges(rest);
      }
    }
  }

  lemma {:induction false} JoinEdges(ws: seq<string>)
    requires ws != [] && forall i :: 0 <= i < |ws| ==> ws[i] != []
    ensures Join(ws) != [] && Join(ws)[0] == ws[0][0]
    ensures var last := ws[|ws| - 1]; Join(ws)[|Join(ws)| - 1] == last[|last| - 1]
  {
    if |ws| > 1 {
      var rest := ws[1..];
      JoinEdges(rest);
      assert Join(ws) == ws[0] + " " + Join(rest);
      assert rest[|rest| - 1] == ws[|ws| - 1];
    }
  }

  lemma CapitalizeWordEdges(w: string)
    requires w != []
    ensures !IsBlank(CapitalizeWord(w)[0]) <==> !IsBlank(w[0])
    ensures var r := CapitalizeWord(w); !IsBlank(r[|r| - 1]) <==> !IsBlank(w[|w| - 1])
  {
  }

  /** `capitalize` never leaves a blank at either end, so its final `trim` only drops the builder's trailing space. */
  lemma CapitalizedEdges(line: string)
    ensures var r := Capitalized(line); r == [] || (!IsBlank(r[0]) && !IsBlank(r[|r| - 1]))
  {
    var t := Trim(line);
    if t != [] {
      CapitalizedWordsEdges(t);
    }
  }

  /** The capitalized words of a text without blank ends start and end it with non-blanks. */
  lemma CapitalizedWordsEdges(t: string)
    requires t != [] && !IsBlank(t[0]) && !IsBlank(t[|t| - 1])
    ensures var r := Join(CapitalizeWords(Words(t))); r != [] && !IsBlank(r[0]) && !IsBlank(r[|r| - 1])
  {
    SpaceIsBlank(t[0]);
    SpaceIsBlank(t[|t| - 1]);
    WordsEdges(t);
    WordsAreWords(t);
    JoinCapitalizedEdges(Words(t));
  }

  /** Capitalized words joined by spaces start and end as the words do. */
  lemma JoinCapitalizedEdges(ws: seq<string>)
    requires ws != [] && forall i :: 0 <= i < |ws| ==> IsWord(ws[i])
    requires ws[0] != [] && !IsBlank(ws[0][0])
    requires var lw := ws[|ws| - 1]; lw != [] && !IsBlank(lw[|lw| - 1])
    ensures var r := Join(CapitalizeWords(ws)); r != [] && !IsBlank(r[0]) && !IsBlank(r[|r| - 1])
  {
    CapitalizeWordsNonEmpty(ws);
    CapitalizeWordsFirst(ws);
    CapitalizeWordsLast(ws);
    JoinNoBlankEdges(CapitalizeWords(ws));
  }

  lemma CapitalizeWordsNonEmpty(ws: seq<string>)
    requires forall i :: 0 <= i < |ws| ==> IsWord(ws[i])
    ensures forall i :: 0 <= i < |ws| ==> CapitalizeWords(ws)[i] != []
  {
    forall i | 0 <= i < |ws| ensures CapitalizeWords(ws)[i] != [] {
      assert IsWord(ws[i]);
    }
  }

  lemma CapitalizeWordsFirst(ws: seq<string>)
    requires ws != [] && ws[0] != [] && !IsBlank(ws[0][0])
    ensures CapitalizeWords(ws)[0] != [] && !IsBlank(CapitalizeWords(ws)[0][0])
  {
    CapitalizeWordEdges(ws[0]);
  }

  lemma CapitalizeWordsLast(ws: seq<string>)
    requires ws != [] && var lw := ws[|ws| - 1]; lw != [] && !IsBlank(lw[|lw| - 1])
    ensures var lc := CapitalizeWords(ws)[|ws| - 1]; lc != [] && !IsBlank(lc[|lc| - 1])
  {
    CapitalizeWordEdges(ws[|ws| - 1]);
  }

  /** Words joined by spaces start with the first word's first char and end with the last word's last char. */
  lemma JoinNoBlankEdges(ws: seq<string>)
    requires ws != [] && forall i :: 0 <= i < |ws| ==> ws[i] != []
    requires !IsBlank(ws[0][0]) && var last := ws[|ws| - 1]; !IsBlank(last[|last| - 1])
    ensures var r := Join(ws); r != [] && !IsBlank(r[0]) && !IsBlank(r[|r| - 1])
  {
    JoinEdges(ws);
  }

  // ---------------------------------------------------------------------------
  // Properties of capitalize

  /** The result is empty exactly when the line is blank (empty, or only characters up to U+0020). */
  lemma CapitalizedEmpty(line: string)
    ensures Capitalized(line) == [] <==> forall i :: 0 <= i < |line| ==> IsBlank(line[i])
  {
    var t := Trim(line);
    TrimFacts(line);
    if t != [] {
      CapitalizedWordsEdges(t);
    }
  }

  lemma CapitalizeWordShape(w: string)
    requires IsWord(w)
    ensures IsCapitalizedWord(CapitalizeWord(w))
  {
    var r := CapitalizeWord(w);
    forall i | 0 <= i < |r| ensures !IsSpace(r[i]) {
      if i > 0 { assert r[i] == ToLower(w[i]); }
    }
  }

  /**
   * The words of the result are the words of the trimmed line, each
   * capitalized, and the result is those words separated by single spaces.
   */
  lemma CapitalizedWords(line: string)
    ensures Words(Capitalized(line)) == CapitalizeWords(Words(Trim(line)))
    ensures Capitalized(line) == Join(Words(Capitalized(line)))
    ensures forall w :: w in Words(Capitalized(line)) ==> IsCapitalizedWord(w)
  {
    var t := Trim(line);
    if t != [] {
      var cws := CapitalizeWords(Words(t));
      WordsAreWords(t);
      forall i | 0 <= i < |cws| ensures IsCapitalizedWord(cws[i]) {
        CapitalizeWordShape(Words(t)[i]);
      }
      WordsOfJoin(cws);
    } else {
      assert CapitalizeWords([""]) == [""];
    }
  }

  lemma CapitalizeWordIdempotent(w: string)
    ensures CapitalizeWord(CapitalizeWord(w)) == CapitalizeWord(w)
  {
    if w != [] {
      CaseMappingFacts(w[0]);
      var tail := LowerAll(w[1..]);
      LowerAllIdempotent(w[1..]);
      assert CapitalizeWord(w) == [ToUpper(w[0])] + tail;
      assert CapitalizeWord(w)[1..] == tail;
    }
  }

  lemma CapitalizeWordsIdempotent(ws: seq<string>)
    ensures CapitalizeWords(CapitalizeWords(ws)) == CapitalizeWords(ws)
  {
    forall i | 0 <= i < |ws| ensures CapitalizeWords(CapitalizeWords(ws))[i] == CapitalizeWords(ws)[i] {
      CapitalizeWordIdempotent(ws[i]);
    }
  }

  /** Splitting a capitalized line again finds the capitalized words. */
  lemma SplitWordsOfCapitalized(line: string)
    requires Trim(line) != []
    ensures SplitWords(Capitalized(line)) == CapitalizeWords(Words(Trim(line)))
  {
    var r := Capitalized(line);
    CapitalizedEdges(line);
    TrimNoBlankEdges(r);
    CapitalizedEmpty(line);
    CapitalizedWords(line);
  }

  /** Capitalizing twice is the same as capitalizing once. */
  lemma CapitalizedIdempotent(line: string)
    ensures Capitalized(Capitalized(line)) == Capitalized(line)
  {
    if Trim(line) != [] {
      var ws := Words(Trim(line));
      SplitWordsOfCapitalized(line);
      CapitalizeWordsIdempotent(ws);
    } else {
      assert CapitalizeWords([""]) == [""];
      assert Capitalized(line) == [];
      assert Trim([]) == [];
    }
  }

  // ---------------------------------------------------------------------------
  // Case does not matter

  function LowerWords(ws: seq<string>): (r: seq<string>)
    ensures |r| == |ws|
  {
    seq(|ws|, i requires 0 <= i < |ws| => LowerAll(ws[i]))
  }

  lemma {:induction false} LeadingWordLower(t: string)
    ensures LeadingWord(LowerAll(t)) == LowerAll(LeadingWord(t))
  {
    if t != [] && !IsSpace(t[0]) {
      assert LowerAll(t)[1..] == LowerAll(t[1..]);
      LeadingWordLower(t[1..]);
    }
  }

  lemma {:induction false} WordsLower(t: string)
    ensures Words(LowerAll(t)) == LowerWords(Words(t))
    decreases |t|
  {
    if t != [] {
      var lt := LowerAll(t);
      if IsSpace(t[0]) {
        assert lt[1..] == LowerAll(t[1..]);
        WordsLower(t[1..]);
      } else {
        var w := LeadingWord(t);
        LeadingWordLower(t);
        assert lt[|w|..] == LowerAll(t[|w|..]);
        WordsLower(t[|w|..]);
        LowerWordsCons(w, Words(t[|w|..]));
      }
    }
  }

  lemma LowerWordsCons(w: string, ws: seq<string>)
    ensures LowerWords([w] + ws) == [LowerAll(w)] + LowerWords(ws)
  {
  }

  lemma SplitWordsLower(s: string)
    ensures SplitWords(LowerAll(s)) == LowerWords(SplitWords(s))
  {
    TrimLower(s);
    var t := Trim(s);
    if t != [] {
      WordsLower(t);
    } else {
      assert LowerWords([""]) == [""];
    }
  }

  lemma CapitalizeWordLower(w: string)
    ensures CapitalizeWord(LowerAll(w)) == CapitalizeWord(w)
  {
    if w != [] {
      CaseMappingFacts(w[0]);
      assert LowerAll(w)[1..] == LowerAll(w[1..]);
      forall i | 0 <= i < |w| - 1 ensures ToLower(ToLower(w[1..][i])) == ToLower(w[1..][i]) {
        CaseMappingFacts(w[1..][i]);
      }
    }
  }

  lemma CapitalizeWordsLower(ws: seq<string>)
    ensures CapitalizeWords(LowerWords(ws)) == CapitalizeWords(ws)
  {
    forall i | 0 <= i < |ws| ensures CapitalizeWords(LowerWords(ws))[i] == CapitalizeWords(ws)[i] {
      CapitalizeWordLower(ws[i]);
    }
  }

  /** Lines that differ only in the case of their letters capitalize to the same text. */
  lemma CapitalizedIgnoresCase(line: string)
    ensures Capitalized(LowerAll(line)) == Capitalized(line)
  {
    SplitWordsLower(line);
    CapitalizeWordsLower(SplitWords(line));
  }

  // ---------------------------------------------------------------------------
  // Characters

  lemma CapitalizeWordChars(w: string, c: char)
    requires !IsUpper(c) && !IsLower(c) && c !in w
    ensures c !in CapitalizeWord(w)
  {
    if w != [] {
      assert w == [w[0]] + w[1..];
    }
  }

  /** Apart from letters and the separating spaces, every character of the result comes from the line. */
  lemma CapitalizedChars(line: string, c: char)
    requires !IsUpper(c) && !IsLower(c) && c != ' ' && c !in line
    ensures c !in Capitalized(line)
  {
    var ws := SplitWords(line);
    SplitWordsChars(line, c);
    forall i | 0 <= i < |ws| ensures c !in CapitalizeWords(ws)[i] {
      CapitalizeWordChars(ws[i], c);
    }
    JoinChars(CapitalizeWords(ws), c);
  }

  /** The words of a text that is its words joined by single spaces, with no blank at either end. */
  lemma SplitWordsOfJoin(ws: seq<string>)
    requires ws != [] && forall i :: 0 <= i < |ws| ==> IsWord(ws[i])
    requires var t := Join(ws); t == [] || (!IsBlank(t[0]) && !IsBlank(t[|t| - 1]))
    ensures SplitWords(Join(ws)) == ws
  {
    JoinEdges(ws);
    TrimNoBlankEdges(Join(ws));
    WordsOfJoin(ws);
  }

  lemma SplitExampleLine(line: string, ws: seq<string>)
    requires line == "123 main st." && ws == ["123", "main", "st."]
    ensures SplitWords(line) == ws
  {
    JoinThree(ws, line);
    assert IsWord(ws[0]) && IsWord(ws[1]) && IsWord(ws[2]);
    SplitWordsOfJoin(ws);
  }

  lemma CapitalizeExampleWords(ws: seq<string>, cs: seq<string>)
    requires ws == ["123", "main", "st."] && cs == ["123", "Main", "St."]
    ensures CapitalizeWords(ws) == cs
  {
    var r := CapitalizeWords(ws);
    assert r[0] == cs[0] && r[1] == cs[1] && r[2] == cs[2];
  }

  /** The example of the `capitalize` test in HouseholdCalculatorTest: punctuation inside a word is kept. */
  lemma CapitalizedExample(line: string)
    requires line == "123 main st."
    ensures Capitalized(line) == "123 Main St."
  {
    var ws, cs := ["123", "main", "st."], ["123", "Main", "St."];
    SplitExampleLine(line, ws);
    CapitalizeExampleWords(ws, cs);
    JoinThree(cs, "123 Main St.");
  }

  // ---------------------------------------------------------------------------
  // The capitalize loop

  /** `capitalize`: capitalize each word, append it and a space, then trim. */
  method Capitalize(line: string) returns (r: string)
    ensures r == Capitalized(line)
  {
    var words := SplitWords(line);
    var result := "";
    for i := 0 to |words|
      invariant result == JoinTerminated(CapitalizeWords(words)[..i])
    {
      var word := words[i];
      if word != [] {
        word := [ToUpper(word[0])] + LowerAll(word[1..]);
      }
      CapitalizeWordsStep(words, i);
      JoinTerminatedSnoc(CapitalizeWords(words)[..i], word);
      result := result + word + " ";
    }
    r := Trim(result);
    assert CapitalizeWords(words)[..|words|] == CapitalizeWords(words);
    CapitalizeBuilt(line);
  }

  lemma JoinTerminatedSnoc(ws: seq<string>, w: string)
    ensures JoinTerminated(ws + [w]) == JoinTerminated(ws) + w + " "
  {
    assert (ws + [w])[..|ws|] == ws;
  }

  lemma CapitalizeWordsStep(words: seq<string>, i: int)
    requires 0 <= i < |words|
    ensures CapitalizeWords(words)[..i + 1] == CapitalizeWords(words)[..i] + [CapitalizeWord(words[i])]
  {
  }

  /** Trimming the builder's text, every word followed by a space, gives `Capitalized`. */
  lemma CapitalizeBuilt(line: string)
    ensures Trim(JoinTerminated(CapitalizeWords(SplitWords(line)))) == Capitalized(line)
  {
    JoinTerminatedIsJoin(CapitalizeWords(SplitWords(line)));
    TrimSnocBlank(Capitalized(line), ' ');
    CapitalizedEdges(line);
    TrimNoBlankEdges(Capitalized(line));
  }

  // ---------------------------------------------------------------------------
  // unifyAddressLineFormat

  /** The characters the first `replaceAll` deletes: comma, semicolon, slash. */
  predicate IsDeletedPunctuation(c: char) { c == ',' || c == ';' || c == '/' }

  /** `replaceAll("[,;\\/]", "")`. */
  function RemovePunctuation(s: string): (r: string)
  {
    if s == [] then []
    else (if IsDeletedPunctuation(s[0]) then [] else [s[0]]) + RemovePunctuation(s[1..])
  }

  /** `replaceAll("[-]", " ")`. */
  function HyphensToSpaces(s: string): (r: string)
    ensures |r| == |s|
  {
    seq(|s|, i requires 0 <= i < |s| => if s[i] == '-' then ' ' else s[i])
  }

  /** Whether `\.$` matches the period at index `k` of `w`. */
  predicate PeriodAtEnd(w: string, k: int)
  {
    0 <= k < |w| && w[k] == '.' && AtInputEnd(w[k + 1..])
  }

  /**
   * `word.replaceAll("\\.$", "")`: the period `$` follows is removed. `$` holds
   * at the end and in front of a final line terminator, so that period is the
   * last, second-to-last or (before "\r\n") third-to-last character.
   */
  function StripFinalPeriod(w: string): string
  {
    if PeriodAtEnd(w, |w| - 1) then w[..|w| - 1]
    else if PeriodAtEnd(w, |w| - 2) then w[..|w| - 2] + w[|w| - 1..]
    else if PeriodAtEnd(w, |w| - 3) then w[..|w| - 3] + w[|w| - 2..]
    else w
  }

  /** One word of the address line: its final period stripped, then capitalized. */
  function NormalizeWord(w: string): string
  {
    Capitalized(StripFinalPeriod(w))
  }

  /** The words normalized one by one, in order. */
  function NormalizeWords(ws: seq<string>): (r: seq<string>)
    ensures |r| == |ws|
  {
    if ws == [] then [] else NormalizeWords(ws[..|ws| - 1]) + [NormalizeWord(ws[|ws| - 1])]
  }

  lemma {:induction false} NormalizeWordsAt(ws: seq<string>, i: int)
    requires 0 <= i < |ws|
    ensures NormalizeWords(ws)[i] == NormalizeWord(ws[i])
  {
    if i < |ws| - 1 {
      NormalizeWordsAt(ws[..|ws| - 1], i);
    }
  }

  /** The text `unifyAddressLineFormat` splits into words. */
  function CleanAddressLine(addressLine: string): string
  {
    HyphensToSpaces(RemovePunctuation(addressLine))
  }

  /**
   * `unifyAddressLineFormat(addressLine)`: delete `,` `;` `/`, turn `-` into a
   * space, split into words, strip each word's final period, capitalize it, join
   * with spaces and trim. A word that was a lone period becomes empty and leaves
   * two spaces between its neighbours.
   */
  function UnifiedAddressLine(addressLine: string): string
  {
    Trim(Join(NormalizeWords(SplitWords(CleanAddressLine(addressLine)))))
  }

  /** `\.$` matches at most one period, and only near the end. */
  lemma PeriodAtEndUnique(w: string, k: int)
    requires PeriodAtEnd(w, k)
    ensures k == |w| - 1 || k == |w| - 2 || k == |w| - 3
    ensures k == |w| - 1 ==> !PeriodAtEnd(w, |w| - 2) && !PeriodAtEnd(w, |w| - 3)
    ensures k == |w| - 2 ==> !PeriodAtEnd(w, |w| - 1) && !PeriodAtEnd(w, |w| - 3)
    ensures k == |w| - 3 ==> !PeriodAtEnd(w, |w| - 1) && !PeriodAtEnd(w, |w| - 2)
  {
    if k == |w| - 3 {
      assert w[k + 1..] == "\r\n";
      assert w[|w| - 2] == '\r' && w[|w| - 1] == '\n';
    }
  }

  /**
   * The period-stripping step, stated as what `replaceAll` does: with no period
   * that `\.$` matches the word is unchanged; otherwise exactly that one period is
   * removed and every other character, periods included, is kept in order.
   */
  lemma StripFinalPeriodSpec(w: string)
    ensures (forall k :: !PeriodAtEnd(w, k)) ==> StripFinalPeriod(w) == w
    ensures forall k :: PeriodAtEnd(w, k) ==> StripFinalPeriod(w) == w[..k] + w[k + 1..]
    ensures |StripFinalPeriod(w)| >= |w| - 1
  {
    forall k | PeriodAtEnd(w, k) ensures StripFinalPeriod(w) == w[..k] + w[k + 1..] {
      PeriodAtEndUnique(w, k);
    }
  }

  lemma StripFinalPeriodChars(w: string, c: char)
    requires c !in w
    ensures c !in StripFinalPeriod(w)
  {
    if PeriodAtEnd(w, |w| - 2) {
      assert StripFinalPeriod(w) == w[..|w| - 2] + [w[|w| - 1]];
    } else if PeriodAtEnd(w, |w| - 3) {
      assert w[|w| - 2..] == [w[|w| - 2], w[|w| - 1]];
    }
  }

  /** The punctuation pass deletes exactly the comma, semicolon and slash characters. */
  lemma {:induction false} RemovePunctuationChars(s: string, c: char)
    ensures c in RemovePunctuation(s) <==> c in s && !IsDeletedPunctuation(c)
  {
    if s != [] {
      RemovePunctuationChars(s[1..], c);
      assert s == [s[0]] + s[1..];
    }
  }

  lemma CleanAddressLineChars(s: string, c: char)
    requires c !in s || IsDeletedPunctuation(c) || c == '-'
    requires c != ' '
    ensures c !in CleanAddressLine(s)
  {
    RemovePunctuationChars(s, c);
  }

  /**
   * Apart from letters and spaces, a character of the unified line comes from the
   * input and is none of the characters the normalization deletes or replaces.
   */
  lemma UnifiedChars(s: string, c: char)
    requires !IsUpper(c) && !IsLower(c) && c != ' '
    requires c !in s || IsDeletedPunctuation(c) || c == '-'
    ensures c !in UnifiedAddressLine(s)
  {
    var x := CleanAddressLine(s);
    CleanAddressLineChars(s, c);
    var ws := SplitWords(x);
    SplitWordsChars(x, c);
    var parts := NormalizeWords(ws);
    NormalizeWordsChars(ws, c);
    JoinChars(parts, c);
    TrimFacts(Join(parts));
  }

  lemma NormalizeWordsChars(ws: seq<string>, c: char)
    requires !IsUpper(c) && !IsLower(c) && c != ' '
    requires forall i :: 0 <= i < |ws| ==> c !in ws[i]
    ensures forall i :: 0 <= i < |ws| ==> c !in NormalizeWords(ws)[i]
  {
    forall i | 0 <= i < |ws| ensures c !in NormalizeWords(ws)[i] {
      NormalizeWordsAt(ws, i);
      StripFinalPeriodChars(ws[i], c);
      CapitalizedChars(StripFinalPeriod(ws[i]), c);
    }
  }

  /** The unified line contains no comma, semicolon, slash or hyphen. */
  lemma UnifiedHasNoSeparators(s: string)
    ensures ',' !in UnifiedAddressLine(s) && ';' !in UnifiedAddressLine(s)
    ensures '/' !in UnifiedAddressLine(s) && '-' !in UnifiedAddressLine(s)
  {
    UnifiedChars(s, ',');
    UnifiedChars(s, ';');
    UnifiedChars(s, '/');
    UnifiedChars(s, '-');
  }

  lemma {:induction false} RemovePunctuationConcat(a: string, b: string)
    ensures RemovePunctuation(a + b) == RemovePunctuation(a) + RemovePunctuation(b)
  {
    if a != [] {
      assert (a + b)[1..] == a[1..] + b;
      RemovePunctuationConcat(a[1..], b);
    } else {
      assert a + b == b;
    }
  }

  /** Inserting a comma, semicolon or slash anywhere does not change the unified line. */
  lemma UnifiedIgnoresDeletedPunctuation(a: string, c: char, b: string)
    requires IsDeletedPunctuation(c)
    ensures UnifiedAddressLine(a + [c] + b) == UnifiedAddressLine(a + b)
  {
    assert CleanAddressLine(a + [c] + b) == CleanAddressLine(a + b) by {
      RemovePunctuationConcat(a + [c], b);
      RemovePunctuationConcat(a, [c]);
      RemovePunctuationConcat(a, b);
      assert RemovePunctuation([c]) == [];
      assert RemovePunctuation(a) + [] == RemovePunctuation(a);
    }
  }

  /** A hyphen separates words exactly as a space does. */
  lemma UnifiedHyphenIsSpace(a: string, b: string)
    ensures UnifiedAddressLine(a + "-" + b) == UnifiedAddressLine(a + " " + b)
  {
    RemoveAroundKept(a, "-", b);
    RemoveAroundKept(a, " ", b);
    HyphenOrSpace(RemovePunctuation(a), RemovePunctuation(b));
  }

  /** A kept character between two texts stays between their cleaned forms. */
  lemma RemoveAroundKept(a: string, sep: string, b: string)
    requires |sep| == 1 && !IsDeletedPunctuation(sep[0])
    ensures RemovePunctuation(a + sep + b) == RemovePunctuation(a) + sep + RemovePunctuation(b)
  {
    RemovePunctuationConcat(a + sep, b);
    RemovePunctuationConcat(a, sep);
    assert sep[1..] == [];
  }

  lemma HyphenOrSpace(x: string, y: string)
    ensures HyphensToSpaces(x + "-" + y) == HyphensToSpaces(x + " " + y)
  {
  }

  lemma {:induction false} RemovePunctuationLower(s: string)
    ensures RemovePunctuation(LowerAll(s)) == LowerAll(RemovePunctuation(s))
  {
    if s != [] {
      assert LowerAll(s)[1..] == LowerAll(s[1..]);
      RemovePunctuationLower(s[1..]);
      var rest := RemovePunctuation(s[1..]);
      if !IsDeletedPunctuation(s[0]) {
        assert LowerAll([s[0]] + rest) == [ToLower(s[0])] + LowerAll(rest);
      }
    }
  }

  lemma StripFinalPeriodLower(w: string)
    ensures StripFinalPeriod(LowerAll(w)) == LowerAll(StripFinalPeriod(w))
  {
    var n := |w|;
    if PeriodAtEnd(w, n - 1) {
      StripLowerAt(w, n - 1);
    } else if PeriodAtEnd(w, n - 2) {
      StripLowerAt(w, n - 2);
    } else if PeriodAtEnd(w, n - 3) {
      StripLowerAt(w, n - 3);
    } else {
      StripLowerNone(w);
    }
  }

  /** The case where `\.$` matches at `k`: the same period goes in both orders. */
  lemma StripLowerAt(w: string, k: int)
    requires PeriodAtEnd(w, k)
    ensures StripFinalPeriod(LowerAll(w)) == LowerAll(StripFinalPeriod(w))
  {
    PeriodAtEndLower(w, k);
    StripFinalPeriodSpec(w);
    StripFinalPeriodSpec(LowerAll(w));
    LowerAllWithout(w, k);
  }

  /** The case where `\.$` does not match: both sides leave the word alone. */
  lemma StripLowerNone(w: string)
    requires !PeriodAtEnd(w, |w| - 1) && !PeriodAtEnd(w, |w| - 2) && !PeriodAtEnd(w, |w| - 3)
    ensures StripFinalPeriod(LowerAll(w)) == LowerAll(StripFinalPeriod(w))
  {
    PeriodAtEndLower(w, |w| - 1);
    PeriodAtEndLower(w, |w| - 2);
    PeriodAtEndLower(w, |w| - 3);
  }

  lemma PeriodAtEndLower(w: string, k: int)
    ensures PeriodAtEnd(LowerAll(w), k) <==> PeriodAtEnd(w, k)
  {
    if 0 <= k < |w| {
      assert LowerAll(w)[k + 1..] == LowerAll(w[k + 1..]);
      AtInputEndLower(w[k + 1..]);
    }
  }

  /** Lower-casing commutes with dropping the character at `k`. */
  lemma LowerAllWithout(w: string, k: int)
    requires 0 <= k < |w|
    ensures LowerAll(w)[..k] + LowerAll(w)[k + 1..] == LowerAll(w[..k] + w[k + 1..])
  {
  }

  lemma AtInputEndLower(t: string)
    ensures AtInputEnd(LowerAll(t)) <==> AtInputEnd(t)
  {
    if |t| == 2 {
      assert LowerAll(t) == [ToLower(t[0]), ToLower(t[1])];
    }
  }

  lemma NormalizeWordsLower(ws: seq<string>)
    ensures NormalizeWords(LowerWords(ws)) == NormalizeWords(ws)
  {
    forall i | 0 <= i < |ws| ensures NormalizeWords(LowerWords(ws))[i] == NormalizeWords(ws)[i] {
      NormalizeWordsAt(ws, i);
      NormalizeWordsAt(LowerWords(ws), i);
      StripFinalPeriodLower(ws[i]);
      CapitalizedIgnoresCase(StripFinalPeriod(ws[i]));
    }
  }

  lemma CleanAddressLineLower(s: string)
    ensures CleanAddressLine(LowerAll(s)) == LowerAll(CleanAddressLine(s))
  {
    RemovePunctuationLower(s);
    var r := RemovePunctuation(s);
    assert HyphensToSpaces(LowerAll(r)) == LowerAll(HyphensToSpaces(r));
  }

  /** Address lines that differ only in the case of their letters unify to the same text. */
  lemma UnifiedIgnoresCase(s: string)
    ensures UnifiedAddressLine(LowerAll(s)) == UnifiedAddressLine(s)
  {
    var x := CleanAddressLine(s);
    CleanAddressLineLower(s);
    SplitWordsLower(x);
    NormalizeWordsLower(SplitWords(x));
    assert NormalizeWords(SplitWords(CleanAddressLine(LowerAll(s)))) == NormalizeWords(SplitWords(x));
  }

  // ---------------------------------------------------------------------------
  // Examples

  /** A single word with no blank at either end capitalizes as a word. */
  lemma CapitalizedOneWord(w: string)
    requires IsWord(w) && !IsBlank(w[0]) && !IsBlank(w[|w| - 1])
    ensures Capitalized(w) == CapitalizeWord(w)
  {
    SplitWordsOfJoin([w]);
  }

  /** Unifying a line whose cleaned text is a list of words joined by single spaces. */
  lemma UnifiedOfWords(s: string, ws: seq<string>)
    requires ws != [] && forall i :: 0 <= i < |ws| ==> IsWord(ws[i])
    requires var t := Join(ws); t == [] || (!IsBlank(t[0]) && !IsBlank(t[|t| - 1]))
    requires CleanAddressLine(s) == Join(ws)
    ensures UnifiedAddressLine(s) == Trim(Join(NormalizeWords(ws)))
  {
    SplitWordsOfJoin(ws);
  }

  /** A word that ends in neither a period nor a line terminator. */
  predicate IsPlainWord(w: string)
  {
    IsWord(w) && !IsBlank(w[0]) && !IsBlank(w[|w| - 1]) &&
    w[|w| - 1] != '.' && !IsLineTerminator(w[|w| - 1])
  }

  lemma NormalizePlainWord(w: string)
    requires IsPlainWord(w)
    ensures NormalizeWord(w) == CapitalizeWord(w)
  {
    assert !PeriodAtEnd(w, |w| - 2) by {
      if |w| >= 2 { assert w[|w| - 1..] == [w[|w| - 1]]; }
    }
    assert !PeriodAtEnd(w, |w| - 3) by {
      if |w| >= 3 { assert w[|w| - 2..][1] == w[|w| - 1]; }
    }
    CapitalizedOneWord(w);
  }

  /** An abbreviation: a plain word followed by one period, which is stripped. */
  lemma NormalizeAbbreviation(v: string)
    requires IsPlainWord(v)
    ensures NormalizeWord(v + ".") == CapitalizeWord(v)
  {
    var w := v + ".";
    assert PeriodAtEnd(w, |w| - 1);
    assert w[..|w| - 1] == v;
    CapitalizedOneWord(v);
  }

  /** Text without commas, semicolons, slashes or hyphens is not changed by the cleaning passes. */
  lemma {:induction false} CleanKeeps(x: string)
    requires forall i :: 0 <= i < |x| ==> !IsDeletedPunctuation(x[i]) && x[i] != '-'
    ensures CleanAddressLine(x) == x
    ensures RemovePunctuation(x) == x
  {
    if x != [] {
      CleanKeeps(x[1..]);
      assert x == [x[0]] + x[1..];
    }
  }

  lemma StripExamples(a: string, b: string, c: string)
    requires a == "st.." && b == "a.b" && c == "."
    ensures StripFinalPeriod(a) == "st."
    ensures StripFinalPeriod(b) == b
    ensures StripFinalPeriod(c) == ""
  {
    assert PeriodAtEnd(a, 3);
    assert !PeriodAtEnd(b, 2);
    assert !PeriodAtEnd(b, 1) by { assert b[2..] == "b"; }
    assert PeriodAtEnd(c, 0);
  }

  lemma ExampleCleaned(s: string, t: string)
    requires s == "123 main st., apt. 200" && t == "123 main st. apt. 200"
    ensures UnifiedAddressLine(s) == UnifiedAddressLine(t)
    ensures CleanAddressLine(t) == t
  {
    var a, b := "123 main st.", " apt. 200";
    assert s == a + [','] + b;
    assert t == a + b;
    CleanKeeps(t);
    UnifiedIgnoresDeletedPunctuation(a, ',', b);
  }

  /** Joining five words, one step of `Join` at a time. */
  lemma JoinFive(ws: seq<string>, t: string)
    requires |ws| == 5
    requires t == ws[0] + " " + (ws[1] + " " + (ws[2] + " " + (ws[3] + " " + ws[4])))
    ensures Join(ws) == t
  {
    assert Join(ws[4..]) == ws[4];
    assert ws[3..][1..] == ws[4..];
    assert Join(ws[3..]) == ws[3] + " " + ws[4];
    assert ws[2..][1..] == ws[3..];
    assert Join(ws[2..]) == ws[2] + " " + (ws[3] + " " + ws[4]);
    assert ws[1..][1..] == ws[2..];
    assert Join(ws[1..]) == ws[1] + " " + (ws[2] + " " + (ws[3] + " " + ws[4]));
  }

  lemma ExampleSplit(t: string, ws: seq<string>)
    requires t == "123 main st. apt. 200" && ws == ["123", "main", "st.", "apt.", "200"]
    requires CleanAddressLine(t) == t
    ensures UnifiedAddressLine(t) == Trim(Join(NormalizeWords(ws)))
  {
    JoinFive(ws, t);
    UnifiedOfWords(t, ws);
  }

  /**
   * When stripping the final period leaves each word a word with visible
   * edges, normalizing the words is capitalizing the stripped words.
   */
  lemma {:induction false} NormalizeWordsOfStripped(ws: seq<string>, vs: seq<string>)
    requires |ws| == |vs|
    requires forall i :: 0 <= i < |ws| ==> StripFinalPeriod(ws[i]) == vs[i]
    requires forall i :: 0 <= i < |vs| ==> IsWord(vs[i]) && !IsBlank(vs[i][0]) && !IsBlank(vs[i][|vs[i]| - 1])
    ensures NormalizeWords(ws) == CapitalizeWords(vs)
  {
    if ws != [] {
      var n := |ws| - 1;
      NormalizeWordsOfStripped(ws[..n], vs[..n]);
      CapitalizedOneWord(vs[n]);
      CapitalizeWordsSnoc(vs);
    }
  }

  lemma CapitalizeWordsSnoc(vs: seq<string>)
    requires vs != []
    ensures CapitalizeWords(vs) == CapitalizeWords(vs[..|vs| - 1]) + [CapitalizeWord(vs[|vs| - 1])]
  {
  }

  lemma ExampleStripped(ws: seq<string>, vs: seq<string>)
    requires ws == ["123", "main", "st.", "apt.", "200"] && vs == ["123", "main", "st", "apt", "200"]
    ensures forall i :: 0 <= i < |ws| ==> StripFinalPeriod(ws[i]) == vs[i]
    ensures forall i :: 0 <= i < |vs| ==> IsWord(vs[i]) && !IsBlank(vs[i][0]) && !IsBlank(vs[i][|vs[i]| - 1])
  {
    StripNoPeriod(ws[0]);
    StripNoPeriod(ws[1]);
    StripLastPeriod(ws[2]);
    StripLastPeriod(ws[3]);
    StripNoPeriod(ws[4]);
    ExampleWordsClean(vs);
  }

  lemma ExampleWordsClean(vs: seq<string>)
    requires vs == ["123", "main", "st", "apt", "200"]
    ensures forall i :: 0 <= i < |vs| ==> IsWord(vs[i]) && !IsBlank(vs[i][0]) && !IsBlank(vs[i][|vs[i]| - 1])
  {
  }

  /** A word without a period is kept as it is. */
  lemma StripNoPeriod(w: string)
    requires forall i :: 0 <= i < |w| ==> w[i] != '.'
    ensures StripFinalPeriod(w) == w
  {
  }

  /** A word ending in a period loses that period. */
  lemma StripLastPeriod(w: string)
    requires w != [] && w[|w| - 1] == '.'
    ensures StripFinalPeriod(w) == w[..|w| - 1]
  {
    assert PeriodAtEnd(w, |w| - 1);
  }

  lemma ExampleCapitalizedWords(vs: seq<string>)
    requires vs == ["123", "main", "st", "apt", "200"]
    ensures CapitalizeWords(vs) == ["123", "Main", "St", "Apt", "200"]
  {
    var r := CapitalizeWords(vs);
    assert r[0] == "123" && r[1] == "Main" && r[2] == "St" && r[3] == "Apt" && r[4] == "200";
  }

  lemma ExampleNormalized(ws: seq<string>)
    requires ws == ["123", "main", "st.", "apt.", "200"]
    ensures NormalizeWords(ws) == ["123", "Main", "St", "Apt", "200"]
  {
    var vs := ["123", "main", "st", "apt", "200"];
    ExampleStripped(ws, vs);
    NormalizeWordsOfStripped(ws, vs);
    ExampleCapitalizedWords(vs);
  }

  lemma ExampleJoined(out: seq<string>)
    requires out == ["123", "Main", "St", "Apt", "200"]
    ensures Trim(Join(out)) == "123 Main St Apt 200"
  {
    JoinFive(out, "123 Main St Apt 200");
    TrimNoBlankEdges("123 Main St Apt 200");
  }

  /** The example of the `unifyAddressLineFormat` test in HouseholdCalculatorTest: stray punctuation and trailing periods go, words are capitalized. */
  lemma UnifiedExample(s: string)
    requires s == "123 main st., apt. 200"
    ensures UnifiedAddressLine(s) == "123 Main St Apt 200"
  {
    var t := "123 main st. apt. 200";
    var ws := ["123", "main", "st.", "apt.", "200"];
    ExampleCleaned(s, t);
    ExampleSplit(t, ws);
    ExampleNormalized(ws);
    ExampleJoined(NormalizeWords(ws));
  }

  /** A word without the characters the cleaning passes delete or replace, with visible first and last characters. */
  predicate IsCleanWord(w: string)
  {
    IsWord(w) && !IsBlank(w[0]) && !IsBlank(w[|w| - 1]) &&
    forall i :: 0 <= i < |w| ==> !IsDeletedPunctuation(w[i]) && w[i] != '-'
  }

  /**
   * A line of clean words separated by single spaces: unifying it strips each
   * word's final period and capitalizes it, and keeps the single spaces.
   */
  lemma UnifiedOfCleanWords(ws: seq<string>, vs: seq<string>)
    requires ws != [] && |ws| == |vs|
    requires forall i :: 0 <= i < |ws| ==> IsCleanWord(ws[i])
    requires forall i :: 0 <= i < |ws| ==> StripFinalPeriod(ws[i]) == vs[i]
    requires forall i :: 0 <= i < |vs| ==> IsWord(vs[i]) && !IsBlank(vs[i][0]) && !IsBlank(vs[i][|vs[i]| - 1])
    ensures UnifiedAddressLine(Join(ws)) == Join(CapitalizeWords(vs))
  {
    CleanJoin(ws);
    UnifiedOfWords(Join(ws), ws);
    NormalizeWordsOfStripped(ws, vs);
    TrimJoinCapitalized(vs);
  }

  /** Clean words joined by single spaces: the cleaning passes keep the text, which has visible ends. */
  lemma CleanJoin(ws: seq<string>)
    requires ws != [] && forall i :: 0 <= i < |ws| ==> IsCleanWord(ws[i])
    ensures forall i :: 0 <= i < |ws| ==> IsWord(ws[i])
    ensures var t := Join(ws); t == [] || (!IsBlank(t[0]) && !IsBlank(t[|t| - 1]))
    ensures CleanAddressLine(Join(ws)) == Join(ws)
  {
    JoinCleanChars(ws);
    CleanKeeps(Join(ws));
    forall i | 0 <= i < |ws| ensures ws[i] != [] {
      assert IsCleanWord(ws[i]);
    }
    JoinEdges(ws);
    assert IsCleanWord(ws[0]) && IsCleanWord(ws[|ws| - 1]);
  }

  lemma TrimJoinCapitalized(vs: seq<string>)
    requires vs != []
    requires forall i :: 0 <= i < |vs| ==> IsWord(vs[i]) && !IsBlank(vs[i][0]) && !IsBlank(vs[i][|vs[i]| - 1])
    ensures Trim(Join(CapitalizeWords(vs))) == Join(CapitalizeWords(vs))
  {
    var cs := CapitalizeWords(vs);
    forall i | 0 <= i < |cs| ensures cs[i] != [] {
      assert |cs[i]| == |vs[i]| && IsWord(vs[i]);
    }
    var first, last := vs[0], vs[|vs| - 1];
    assert IsWord(first) && !IsBlank(first[0]);
    assert IsWord(last) && !IsBlank(last[|last| - 1]);
    CapitalizeWordEdges(first);
    CapitalizeWordEdges(last);
    TrimJoinEdges(cs);
  }

  lemma TrimJoinEdges(ws: seq<string>)
    requires ws != [] && forall i :: 0 <= i < |ws| ==> ws[i] != []
    requires !IsBlank(ws[0][0]) && var last := ws[|ws| - 1]; !IsBlank(last[|last| - 1])
    ensures Trim(Join(ws)) == Join(ws)
  {
    JoinEdges(ws);
    TrimNoBlankEdges(Join(ws));
  }

  lemma JoinCleanChars(ws: seq<string>)
    requires forall i :: 0 <= i < |ws| ==> IsCleanWord(ws[i])
    ensures forall i :: 0 <= i < |Join(ws)| ==> !IsDeletedPunctuation(Join(ws)[i]) && Join(ws)[i] != '-'
  {
    forall c | IsDeletedPunctuation(c) || c == '-' ensures c !in Join(ws) {
      forall i | 0 <= i < |ws| ensures c !in ws[i] {
        assert IsCleanWord(ws[i]);
      }
      JoinChars(ws, c);
    }
  }

  /** The address line of the `parseLine` and `parseAddress` tests in HouseholdCalculatorTest. */
  lemma UnifiedMainStreet(s: string)
    requires s == "123 Main St."
    ensures UnifiedAddressLine(s) == "123 Main St"
  {
    var ws := ["123", "Main", "St."];
    var vs := ["123", "Main", "St"];
    MainStreetWords(ws, vs);
    MainStreetJoined(ws, s);
    UnifiedOfCleanWords(ws, vs);
    MainStreetCapitalized(vs);
    MainStreetJoined(vs, "123 Main St");
  }

  lemma MainStreetJoined(ws: seq<string>, t: string)
    requires (ws == ["123", "Main", "St."] && t == "123 Main St.") || (ws == ["123", "Main", "St"] && t == "123 Main St")
    ensures Join(ws) == t
  {
    JoinThree(ws, t);
  }

  lemma MainStreetWords(ws: seq<string>, vs: seq<string>)
    requires ws == ["123", "Main", "St."] && vs == ["123", "Main", "St"]
    ensures forall i :: 0 <= i < |ws| ==> IsCleanWord(ws[i])
    ensures forall i :: 0 <= i < |ws| ==> StripFinalPeriod(ws[i]) == vs[i]
    ensures forall i :: 0 <= i < |vs| ==> IsWord(vs[i]) && !IsBlank(vs[i][0]) && !IsBlank(vs[i][|vs[i]| - 1])
  {
    assert PeriodAtEnd(ws[2], 2);
  }

  lemma MainStreetCapitalized(vs: seq<string>)
    requires vs == ["123", "Main", "St"]
    ensures CapitalizeWords(vs) == vs
  {
    var cs := CapitalizeWords(vs);
    assert cs[0] == "123" && cs[1] == "Main" && cs[2] == "St";
  }

  lemma JoinThree(ws: seq<string>, t: string)
    requires |ws| == 3 && t == ws[0] + " " + (ws[1] + " " + ws[2])
    ensures Join(ws) == t
  {
    assert Join(ws[2..]) == ws[2];
    assert ws[1..][1..] == ws[2..];
  }

  lemma NormalizeOneWord(w: string, v: string)
    requires StripFinalPeriod(w) == v && IsWord(v) && !IsBlank(v[0]) && !IsBlank(v[|v| - 1])
    ensures NormalizeWords([w]) == [CapitalizeWord(v)]
  {
    assert [w][..0] == [];
    CapitalizedOneWord(v);
  }

  /** A line that is a single word: the result is that word with its final period stripped, capitalized. */
  lemma UnifiedOneWord(w: string, v: string)
    requires IsWord(w) && !IsBlank(w[0]) && !IsBlank(w[|w| - 1])
    requires forall i :: 0 <= i < |w| ==> !IsDeletedPunctuation(w[i]) && w[i] != '-'
    requires StripFinalPeriod(w) == v && IsWord(v) && !IsBlank(v[0]) && !IsBlank(v[|v| - 1])
    ensures UnifiedAddressLine(w) == CapitalizeWord(v)
  {
    CleanKeeps(w);
    JoinOne(w);
    UnifiedOfWords(w, [w]);
    NormalizeOneWord(w, v);
    var c := CapitalizeWord(v);
    JoinOne(c);
    CapitalizeWordEdges(v);
    TrimNoBlankEdges(c);
  }

  lemma JoinOne(w: string)
    ensures Join([w]) == w
  {
  }

  lemma UnifiedTwoPeriods(s: string)
    requires s == "St.."
    ensures UnifiedAddressLine(s) == "St."
  {
    assert PeriodAtEnd(s, 3);
    UnifiedOneWord(s, "St.");
  }

  lemma UnifiedOnePeriod(s: string)
    requires s == "St."
    ensures UnifiedAddressLine(s) == "St"
  {
    assert PeriodAtEnd(s, 2);
    UnifiedOneWord(s, "St");
  }

  /**
   * Unifying is not idempotent: only one trailing period goes per pass, so
   * "St.." becomes "St." and that in turn becomes "St".
   */
  lemma UnifiedNotIdempotent(s: string)
    requires s == "St.."
    ensures UnifiedAddressLine(s) == "St."
    ensures UnifiedAddressLine(UnifiedAddressLine(s)) == "St"
  {
    UnifiedTwoPeriods(s);
    UnifiedOnePeriod(UnifiedAddressLine(s));
  }

  // ---------------------------------------------------------------------------
  // The unifyAddressLineFormat loop

  /** `unifyAddressLineFormat`: clean the text, then for each word strip, capitalize, append it and a space; trim. */
  method UnifyAddressLineFormat(addressLine: string) returns (r: string)
    ensures r == UnifiedAddressLine(addressLine)
  {
    var cleaned := RemovePunctuation(addressLine);
    cleaned := HyphensToSpaces(cleaned);
    var words := SplitWords(cleaned);
    var result := "";
    for i := 0 to |words|
      invariant result == JoinTerminated(NormalizeWords(words[..i]))
    {
      var word := StripFinalPeriod(words[i]);
      var capitalizedWord := Capitalize(word);
      NormalizeWordsStep(words, i);
      JoinTerminatedSnoc(NormalizeWords(words[..i]), capitalizedWord);
      result := result + capitalizedWord + " ";
    }
    r := Trim(result);
    assert words[..|words|] == words;
    UnifyBuilt(addressLine);
  }

  lemma NormalizeWordsStep(words: seq<string>, i: int)
    requires 0 <= i < |words|
    ensures NormalizeWords(words[..i + 1]) == NormalizeWords(words[..i]) + [NormalizeWord(words[i])]
  {
    assert words[..i + 1][..i] == words[..i];
  }

  /** Trimming the builder's text, every normalized word followed by a space, gives `UnifiedAddressLine`. */
  lemma UnifyBuilt(addressLine: string)
    ensures Trim(JoinTerminated(NormalizeWords(SplitWords(CleanAddressLine(addressLine))))) == UnifiedAddressLine(addressLine)
  {
    var ws := NormalizeWords(SplitWords(CleanAddressLine(addressLine)));
    JoinTerminatedIsJoin(ws);
    TrimSnocBlank(Join(ws), ' ');
  }
}
