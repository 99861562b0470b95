/**
  The inputs and outcomes of the package's tests, stated over the model: the
  extension gate, malformed logs, the duplicate log and the ten-line log whose
  counts and ranking are fixed.
 */
module OrderScenarios {
  import opened Wrappers
  import opened Errors
  import opened GoText
  import opened Order

  /** The ten records of the success test, one eater each. */
  const FixtureOrders: seq<Order> := [
    Order(1, 1), Order(2, 2), Order(3, 3), Order(4, 1), Order(5, 1),
    Order(6, 2), Order(7, 2), Order(8, 3), Order(9, 2), Order(10, 2)]

  /** The lines of the success test's log. */
  const FixtureLines: seq<string> := [
    "1, 1", "2, 2", "3, 3", "4, 1", "5, 1", "6, 2", "7, 2", "8, 3", "9, 2", "10, 2"]

  const FixtureCounts: map<int, int> := map[1 := 3, 2 := 5, 3 := 2]

  // The extension gate.

  /** A name without a dot has no extension and is refused. */
  lemma NoExtensionRefused()
    ensures !ValidExtension("log")
  {
    ValidExtensionIff("log");
  }

  /** The gate ignores letter case. */
  lemma UpperCaseExtensionAccepted()
    ensures ValidExtension("a.TXT")
  {
    ValidExtensionIff("a.TXT");
    assert "a.TXT"[1..] == ".TXT";
    assert ToLower(".TXT") == ".txt";
  }

  /** The names of the tests are accepted. */
  lemma TestNamesAccepted()
    ensures ValidExtension("text.txt") && ValidExtension("log_test.txt")
  {
    ValidExtensionIff("text.txt");
    assert "text.txt"[4..] == ".txt";
    assert ToLower(".txt") == ".txt";
    ValidExtensionIff("log_test.txt");
    assert "log_test.txt"[8..] == ".txt";
  }

  /** A ".txt" inside a directory name is not the file's extension. */
  lemma DirectoryDotRefused()
    ensures !ValidExtension("notes.txt/log")
  {
    ValidExtensionIff("notes.txt/log");
    assert "notes.txt/log"[9..] == "/log";
    assert ToLower("/log")[0] == '/';
  }

  /** Only the last dot of the name counts. */
  lemma EarlierDotRefused()
    ensures !ValidExtension("log.txt.bak")
  {
    ValidExtensionIff("log.txt.bak");
    assert "log.txt.bak"[7..] == ".bak";
    assert ToLower(".bak")[1] == 'b';
  }

  // Single lines.

  /** A line without a comma has one field. */
  lemma MissingCommaRejected()
    ensures ParseLine("2 2") == Rejected(WrongFieldCount)
  {
    assert Occurrences("2 2", ',') == 0;
  }

  /** An empty line has one (empty) field; it is not skipped. */
  lemma EmptyLineRejected()
    ensures ParseLine("") == Rejected(WrongFieldCount)
  {
  }

  /** A line with two commas has three fields. */
  lemma ExtraCommaRejected()
    ensures ParseLine("1,2,3") == Rejected(WrongFieldCount)
  {
    assert Occurrences("1,2,3", ',') == 2;
  }

  /** A letter in the eater field. */
  lemma BadEaterRejected()
    ensures ParseLine("A,1") == Rejected(BadEaterID)
  {
    SplitAtOnly("A", "1", ',');
    assert "A" + [','] + "1" == "A,1";
    assert Trim("A", ' ') == "A";
    assert Atoi("A") == None;
  }

  /** A letter in the menu-item field, after the eater field parsed. */
  lemma BadMenuItemRejected()
    ensures ParseLine("2, A") == Rejected(BadFoodMenuID)
  {
    SplitAtOnly("2", " A", ',');
    assert "2" + [','] + " A" == "2, A";
    ItoaDigit(2);
    AtoiItoa(2);
    assert Trim("2", ' ') == "2";
    assert Trim(" A", ' ') == "A";
    assert Atoi("A") == None;
  }

  /** A one-digit number is written as its digit. */
  lemma ItoaDigit(d: nat)
    requires d < 10
    ensures Itoa(d) == [DigitChar(d)]
  {
  }

  /** A one-digit eater and a one-digit item, written "e," then `c` spaces and "m", parse to the record. */
  lemma DigitLine(e: nat, m: nat, c: nat)
    requires e < 10 && m < 10
    ensures ParseLine([DigitChar(e), ','] + Repeat(' ', c) + [DigitChar(m)]) == Parsed(Order(e, m))
  {
    ParsePaddedLine(Order(e, m), 0, 0, c, 0);
    ItoaDigit(e);
    ItoaDigit(m);
    var none := Repeat(' ', 0);
    assert none == [];
    calc {
      PaddedLine(Order(e, m), 0, 0, c, 0);
      none + [DigitChar(e)] + none + "," + Repeat(' ', c) + [DigitChar(m)] + none;
      { assert none + [DigitChar(e)] + none == [DigitChar(e)]; }
      [DigitChar(e)] + "," + Repeat(' ', c) + [DigitChar(m)] + none;
      [DigitChar(e), ','] + Repeat(' ', c) + [DigitChar(m)];
    }
  }

  /** The tenth line of the success log has a two-digit eater. */
  lemma TenthLine()
    ensures ParseLine("10, 2") == Parsed(Order(10, 2))
  {
    ParsePaddedLine(Order(10, 2), 0, 0, 1, 0);
    assert NatDigits(10) == NatDigits(1) + [DigitChar(0)];
    assert Itoa(10) == "10";
    assert Itoa(2) == "2";
    assert PaddedLine(Order(10, 2), 0, 0, 1, 0) == "10, 2";
  }

  /** One line of the success log of the form "e, m". */
  lemma FixtureLine(i: nat)
    requires i < 9
    ensures ParseLine(FixtureLines[i]) == Parsed(FixtureOrders[i])
  {
    var o := FixtureOrders[i];
    DigitLine(o.eaterID, o.foodMenuID, 1);
    assert FixtureLines[i] == [DigitChar(o.eaterID), ','] + Repeat(' ', 1) + [DigitChar(o.foodMenuID)];
  }

  // Whole logs.

  /** The success log parses to the ten records. */
  lemma FixtureParses()
    ensures AllParse(FixtureLines) && ParsedOrders(FixtureLines) == FixtureOrders
  {
    forall i | 0 <= i < 10
      ensures ParseLine(FixtureLines[i]) == Parsed(FixtureOrders[i])
    {
      if i < 9 { FixtureLine(i); } else { TenthLine(); }
    }
  }

  /** The test's log whose second line lacks a comma. */
  lemma MissingCommaLog()
    ensures FirstBadLine(["1,1", "2 2"]) == 1
  {
    DigitLine(1, 1, 0);
    assert "1,1" == [DigitChar(1), ','] + Repeat(' ', 0) + [DigitChar(1)];
    MissingCommaRejected();
    FirstBadLineAt(["1,1", "2 2"], 1);
  }

  /** The test's log whose first line has a letter for the eater. */
  lemma BadEaterLog()
    ensures FirstBadLine(["A,1", "2 2"]) == 0
  {
    BadEaterRejected();
    FirstBadLineAt(["A,1", "2 2"], 0);
  }

  /** The test's log whose second line has a letter for the menu item. */
  lemma BadMenuItemLog()
    ensures FirstBadLine(["1, 1", "2, A"]) == 1
  {
    FixtureLine(0);
    BadMenuItemRejected();
    FirstBadLineAt(["1, 1", "2, A"], 1);
  }

  /** An empty line between two good lines stops the parse there. */
  lemma EmptyLineLog()
    ensures FirstBadLine(["1,1", "", "2,2"]) == 1
  {
    DigitLine(1, 1, 0);
    assert "1,1" == [DigitChar(1), ','] + Repeat(' ', 0) + [DigitChar(1)];
    EmptyLineRejected();
    FirstBadLineAt(["1,1", "", "2,2"], 1);
  }

  /** "1,1" parses to eater 1, item 1. */
  lemma TightLine()
    ensures ParseLine("1,1") == Parsed(Order(1, 1))
  {
    DigitLine(1, 1, 0);
    assert "1,1" == [DigitChar(1), ','] + Repeat(' ', 0) + [DigitChar(1)];
  }

  /** "2, 2" parses to eater 2, item 2. */
  lemma SpacedLine()
    ensures ParseLine("2, 2") == Parsed(Order(2, 2))
  {
    DigitLine(2, 2, 1);
    assert "2, 2" == [DigitChar(2), ','] + Repeat(' ', 1) + [DigitChar(2)];
  }

  /** "1, 1" parses to eater 1, item 1. */
  lemma SpacedLineOne()
    ensures ParseLine("1, 1") == Parsed(Order(1, 1))
  {
    DigitLine(1, 1, 1);
    assert "1, 1" == [DigitChar(1), ','] + Repeat(' ', 1) + [DigitChar(1)];
  }

  /** The log of the duplicate test: eater 1 orders item 1, eater 2 item 2, then eater 1 item 1 again. */
  const DuplicateLines: seq<string> := ["1,1", "2, 2", "1, 1"]

  const DuplicateOrders: seq<Order> := [Order(1, 1), Order(2, 2), Order(1, 1)]

  /** The duplicate test's log parses to its three records. */
  lemma DuplicateLogParses()
    ensures AllParse(DuplicateLines) && ParsedOrders(DuplicateLines) == DuplicateOrders
  {
    forall i | 0 <= i < 3
      ensures ParseLine(DuplicateLines[i]) == Parsed(DuplicateOrders[i])
    {
      if i == 0 {
        TightLine();
      } else if i == 1 {
        SpacedLine();
      } else {
        SpacedLineOne();
      }
    }
  }

  /** The duplicate test's log parses and is refused as a duplicate. */
  lemma DuplicateLog()
    ensures AllParse(DuplicateLines) && HasDuplicate(ParsedOrders(DuplicateLines))
  {
    DuplicateLogParses();
    RepeatedPairIsDuplicate(DuplicateOrders, 0, 2);
  }

  /** The count of a pair of records. */
  lemma CountPair(a: Order, b: Order, item: int)
    ensures Count([a, b], item) == (if a.foodMenuID == item then 1 else 0) + (if b.foodMenuID == item then 1 else 0)
  {
    assert [a, b][..1] == [a];
    assert [a][..0] == [];
    assert Count([a], item) == (if a.foodMenuID == item then 1 else 0);
    assert [a, b][1] == b;
  }

  /** The success log's count of one item, summed over its five pairs of records. */
  lemma FixtureCount(item: int)
    ensures Count(FixtureOrders, item) == (if item in FixtureCounts then FixtureCounts[item] else 0)
  {
    var p1 := [Order(1, 1), Order(2, 2)];
    var p2 := [Order(3, 3), Order(4, 1)];
    var p3 := [Order(5, 1), Order(6, 2)];
    var p4 := [Order(7, 2), Order(8, 3)];
    var p5 := [Order(9, 2), Order(10, 2)];
    CountPair(Order(1, 1), Order(2, 2), item);
    CountPair(Order(3, 3), Order(4, 1), item);
    CountPair(Order(5, 1), Order(6, 2), item);
    CountPair(Order(7, 2), Order(8, 3), item);
    CountPair(Order(9, 2), Order(10, 2), item);
    CountConcat(p1, p2, item);
    CountConcat(p1 + p2, p3, item);
    CountConcat(p1 + p2 + p3, p4, item);
    CountConcat(p1 + p2 + p3 + p4, p5, item);
    assert p1 + p2 + p3 + p4 + p5 == FixtureOrders;
  }

  /** The success log is accepted and counts item 1 three times, item 2 five times, item 3 twice. */
  lemma FixtureAggregates()
    ensures !HasDuplicate(FixtureOrders)
    ensures ItemCounts(FixtureOrders) == FixtureCounts
  {
    DistinctEatersNoDuplicate(FixtureOrders);
    ItemCountsMeaning(FixtureOrders);
    var m := ItemCounts(FixtureOrders);
    forall item ensures (item in m <==> item in FixtureCounts) && (item in m ==> m[item] == FixtureCounts[item]) {
      FixtureCount(item);
    }
    assert m.Keys == FixtureCounts.Keys;
  }

  /** With counts 3, 5 and 2 the only ranking is [2, 1, 3], as the success test expects. */
  lemma FixtureRanking(ids: seq<int>)
    requires IsRanking(ids, FixtureCounts)
    ensures ids == [2, 1, 3]
  {
    RankingIsPermutation(ids, FixtureCounts);
    assert |ids| == 3;
    assert ids[0] == 2 by {
      assert 2 in ids;
      var k :| 0 <= k < 3 && ids[k] == 2;
      assert FixtureCounts[ids[0]] >= FixtureCounts[ids[k]];
    }
    assert ids[2] == 3 by {
      assert 3 in ids;
      var k :| 0 <= k < 3 && ids[k] == 3;
      assert FixtureCounts[ids[k]] >= FixtureCounts[ids[2]];
    }
    assert 1 in ids;
  }

  /**
    The success test, restated against the entry point's contract: the
    ten-line log gives the counts {1:3, 2:5, 3:2} and the ranking [2, 1, 3].
   */
  method SuccessTest() returns (sortedMenuIDs: Option<seq<int>>, orderedItemCounts: Option<map<int, int>>, err: Option<Error>)
    ensures err == None
    ensures orderedItemCounts == Some(FixtureCounts)
    ensures sortedMenuIDs == Some([2, 1, 3])
  {
    FixtureParses();
    FixtureAggregates();
    TestNamesAccepted();
    sortedMenuIDs, orderedItemCounts, err := FetchTopThreeOrderedItems("log_test.txt", Some(FixtureLines));
    FixtureRanking(sortedMenuIDs.value);
  }

  /**
    The failing tests, restated against the entry point's contract: each
    input gives its error code, in the order of the tests, and nil results.
   */
  method FailureTests() returns (codes: seq<int>, nilResults: bool)
    ensures codes == [InvalidFileErr, FileNotFoundErr, IncorrectInputErr, IncorrectInputErr, IncorrectInputErr, IncorrectInputErr]
    ensures nilResults
  {
    NoExtensionRefused();
    var ids, counts, err := FetchTopThreeOrderedItems("log", Some(FixtureLines));
    var c0, n0 := err.value.Code(), ids == None && counts == None;
    TestNamesAccepted();
    ids, counts, err := FetchTopThreeOrderedItems("text.txt", None);
    var c1, n1 := err.value.Code(), ids == None && counts == None;
    MissingCommaLog();
    ids, counts, err := FetchTopThreeOrderedItems("log_test.txt", Some(["1,1", "2 2"]));
    var c2, n2 := err.value.Code(), ids == None && counts == None;
    BadEaterLog();
    ids, counts, err := FetchTopThreeOrderedItems("log_test.txt", Some(["A,1", "2 2"]));
    var c3, n3 := err.value.Code(), ids == None && counts == None;
    BadMenuItemLog();
    ids, counts, err := FetchTopThreeOrderedItems("log_test.txt", Some(["1, 1", "2, A"]));
    var c4, n4 := err.value.Code(), ids == None && counts == None;
    DuplicateLog();
    ids, counts, err := FetchTopThreeOrderedItems("log_test.txt", Some(DuplicateLines));
    var c5, n5 := err.value.Code(), ids == None && counts == None;
    codes := [c0, c1, c2, c3, c4, c5];
    nilResults := n0 && n1 && n2 && n3 && n4 && n5;
  }
}
