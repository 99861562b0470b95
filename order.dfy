/**
  The order pipeline of package `order`: a log of dining-hall orders, one
  "eaterID, foodMenuID" per line, is checked, parsed, aggregated into a count
  per menu item, and the menu items are ranked by descending count.

  The log is given as the sequence of lines the scanner yields, or None when
  the file cannot be opened.
 */
module Order {
  import opened Wrappers
  import opened Errors
  import opened GoText

  const InvalidFileErr: Code := 700
  const FileNotFoundErr: Code := 701
  const IncorrectInputErr: Code := 702

  /** The three codes follow one another from 700, in declaration order. */
  lemma ErrorCodesConsecutive()
    ensures InvalidFileErr == 700
    ensures FileNotFoundErr == InvalidFileErr + 1
    ensures IncorrectInputErr == FileNotFoundErr + 1
  {
  }

  /** One line of the log. */
  datatype Order = Order(eaterID: int, foodMenuID: int)

  // ===========================================================================
  // Extension gate
  // ===========================================================================

  /**
    The extension of the final path element, lower-cased, is ".txt"; the
    extension is then the name's last four characters.
   */
  predicate ValidExtension(fileName: string)
    ensures ValidExtension(fileName) ==> |fileName| >= 4 && Ext(fileName) == fileName[|fileName| - 4..]
  {
    ToLower(Ext(fileName)) == ".txt"
  }

  /**
    The gate accepts exactly the names whose last four characters are ".txt"
    in any mix of letter case: a dot in a directory name or an earlier dot of
    the final element does not count.
   */
  lemma ValidExtensionIff(fileName: string)
    ensures ValidExtension(fileName)
        <==> |fileName| >= 4 && ToLower(fileName[|fileName| - 4..]) == ".txt"
  {
    var n := |fileName|;
    var ext := Ext(fileName);
    if ValidExtension(fileName) {
      assert |ext| == 4;
      assert ext == fileName[n - 4..];
    }
    if n >= 4 && ToLower(fileName[n - 4..]) == ".txt" {
      var tail := fileName[n - 4..];
      assert LowerChar(tail[0]) == '.' && tail[0] == '.';
      assert forall j :: 1 <= j < 4 ==> tail[j] != '.' && tail[j] != '/' by {
        forall j | 1 <= j < 4 ensures tail[j] != '.' && tail[j] != '/' {
          assert LowerChar(tail[j]) in "txt";
        }
      }
      assert fileName[n - 3..] == tail[1..];
      ExtAtLastDot(fileName, 4);
    }
  }

  /** Ext gives the suffix from a dot that has neither a dot nor a slash after it. */
  lemma {:induction false} ExtAtLastDot(path: string, k: nat)
    requires 1 <= k <= |path| && path[|path| - k] == '.'
    requires '.' !in path[|path| - k + 1..] && '/' !in path[|path| - k + 1..]
    ensures Ext(path) == path[|path| - k..]
  {
    var n := |path| - 1;
    if k > 1 {
      var m := n - (k - 1);
      var prefix := path[..n];
      assert prefix[|prefix| - (k - 1) + 1..] == path[m + 1..n];
      assert path[n] == path[m + 1..][n - m - 1];
      ExtAtLastDot(prefix, k - 1);
      assert prefix[m..] == path[m..n];
      assert path[m..n] + [path[n]] == path[m..];
    }
  }

  // ===========================================================================
  // Line parser
  // ===========================================================================

  /** Why a line was refused; the message text of the error says which. */
  datatype LineFault = WrongFieldCount | BadEaterID | BadFoodMenuID

  datatype LineResult = Parsed(order: Order) | Rejected(fault: LineFault)

  /**
    One line, as the parser reads it: split on ',', exactly two fields, each
    trimmed of spaces and read as a 64-bit integer, the eater first.
   */
  function ParseLine(line: string): (r: LineResult)
    ensures r == Rejected(WrongFieldCount) <==> Occurrences(line, ',') != 1
    ensures r.Parsed? ==> MinInt64 <= r.order.eaterID <= MaxInt64
    ensures r.Parsed? ==> MinInt64 <= r.order.foodMenuID <= MaxInt64
  {
    var parts := Split(line, ',');
    if |parts| != 2 then Rejected(WrongFieldCount)
    else
      match Atoi(Trim(parts[0], ' '))
      case None => Rejected(BadEaterID)
      case Some(eaterID) =>
        match Atoi(Trim(parts[1], ' '))
        case None => Rejected(BadFoodMenuID)
        case Some(foodMenuID) => Parsed(Order(eaterID, foodMenuID))
  }

  /** A log line for `o`, with `a`, `b`, `c`, `d` spaces around its two fields. */
  function PaddedLine(o: Order, a: nat, b: nat, c: nat, d: nat): string {
    Repeat(' ', a) + Itoa(o.eaterID) + Repeat(' ', b) + ","
    + Repeat(' ', c) + Itoa(o.foodMenuID) + Repeat(' ', d)
  }

  /** Padding a comma-free field with spaces keeps it comma-free. */
  lemma PaddedHasNoComma(x: string, a: nat, b: nat)
    requires ',' !in x
    ensures ',' !in Repeat(' ', a) + x + Repeat(' ', b)
  {
    RepeatOnly(' ', a);
    RepeatOnly(' ', b);
  }

  /** A padded line is its first field, a comma, and its second field. */
  lemma PaddedLineShape(o: Order, a: nat, b: nat, c: nat, d: nat)
    ensures PaddedLine(o, a, b, c, d) ==
      (Repeat(' ', a) + Itoa(o.eaterID) + Repeat(' ', b)) + [','] + (Repeat(' ', c) + Itoa(o.foodMenuID) + Repeat(' ', d))
  {
  }

  /** A padded line splits on its one comma into the two padded fields. */
  lemma PaddedLineFields(o: Order, a: nat, b: nat, c: nat, d: nat)
    ensures Split(PaddedLine(o, a, b, c, d), ',') ==
      [Repeat(' ', a) + Itoa(o.eaterID) + Repeat(' ', b), Repeat(' ', c) + Itoa(o.foodMenuID) + Repeat(' ', d)]
  {
    PaddedHasNoComma(Itoa(o.eaterID), a, b);
    PaddedHasNoComma(Itoa(o.foodMenuID), c, d);
    PaddedLineShape(o, a, b, c, d);
    SplitAtOnly(Repeat(' ', a) + Itoa(o.eaterID) + Repeat(' ', b), Repeat(' ', c) + Itoa(o.foodMenuID) + Repeat(' ', d), ',');
  }

  /** Any 64-bit order written as a line, with any spacing around its fields, parses back to itself. */
  lemma ParsePaddedLine(o: Order, a: nat, b: nat, c: nat, d: nat)
    requires MinInt64 <= o.eaterID <= MaxInt64 && MinInt64 <= o.foodMenuID <= MaxInt64
    ensures ParseLine(PaddedLine(o, a, b, c, d)) == Parsed(o)
  {
    PaddedLineFields(o, a, b, c, d);
    TrimPadded(Itoa(o.eaterID), ' ', a, b);
    TrimPadded(Itoa(o.foodMenuID), ' ', c, d);
    AtoiItoa(o.eaterID);
    AtoiItoa(o.foodMenuID);
  }

  /** Every line before `lines[i]` parses. */
  predicate AllParse(lines: seq<string>) {
    forall i :: 0 <= i < |lines| ==> ParseLine(lines[i]).Parsed?
  }

  /** The index of the first line that does not parse, or |lines| when all do. */
  function FirstBadLine(lines: seq<string>): (k: nat)
    ensures k <= |lines|
    ensures forall i :: 0 <= i < k ==> ParseLine(lines[i]).Parsed?
    ensures k < |lines| ==> ParseLine(lines[k]).Rejected?
  {
    if lines == [] then 0
    else if ParseLine(lines[0]).Rejected? then 0
    else
      var k := FirstBadLine(lines[1..]);
      assert forall i :: 1 <= i <= k && i < |lines| ==> lines[i] == lines[1..][i - 1];
      1 + k
  }

  /** The records of a log whose lines all parse: one per line, in order. */
  function ParsedOrders(lines: seq<string>): (orders: seq<Order>)
    requires AllParse(lines)
    ensures |orders| == |lines|
    ensures forall i :: 0 <= i < |lines| ==> orders[i] == ParseLine(lines[i]).order
  {
    seq(|lines|, i requires 0 <= i < |lines| && ParseLine(lines[i]).Parsed? => ParseLine(lines[i]).order)
  }

  /**
    fetchOrderDetails over the lines of an opened file. The first line that
    does not parse ends the read with an incorrect-input error. As the Go
    code is written, a line with the wrong number of fields returns the
    records read so far beside the error, a bad number returns none.
   */
  method FetchOrderDetails(lines: seq<string>) returns (orders: seq<Order>, err: Option<Error>)
    ensures AllParse(lines) <==> err.None?
    ensures AllParse(lines) ==> orders == ParsedOrders(lines)
    ensures !AllParse(lines) ==> err == Some(NewIncorrectInputError(IncorrectInputErr))
    ensures !AllParse(lines) ==>
      var k := FirstBadLine(lines);
      orders == if ParseLine(lines[k]).fault == WrongFieldCount then ParsedOrders(lines[..k]) else []
  {
    orders := [];
    err := None;
    var i := 0;
    while i < |lines|
      invariant 0 <= i <= |lines|
      invariant AllParse(lines[..i]) && orders == ParsedOrders(lines[..i])
    {
      match ParseLine(lines[i])
      case Rejected(fault) =>
        StopAt(lines, i);
        if fault == WrongFieldCount {
          return orders, Some(NewIncorrectInputError(IncorrectInputErr));
        }
        return [], Some(NewIncorrectInputError(IncorrectInputErr));
      case Parsed(o) =>
        ParsedSnoc(lines, i);
        orders := orders + [o];
        i := i + 1;
    }
    assert lines[..i] == lines;
  }

  /** A rejected line after lines that all parse is the log's first bad line. */
  lemma StopAt(lines: seq<string>, i: nat)
    requires i < |lines| && ParseLine(lines[i]).Rejected? && AllParse(lines[..i])
    ensures !AllParse(lines) && FirstBadLine(lines) == i
  {
    assert forall k :: 0 <= k < i ==> lines[k] == lines[..i][k];
    FirstBadLineAt(lines, i);
  }

  /** One more parsed line adds its record to the end of the parse. */
  lemma ParsedSnoc(lines: seq<string>, i: nat)
    requires i < |lines| && ParseLine(lines[i]).Parsed? && AllParse(lines[..i])
    ensures AllParse(lines[..i + 1])
    ensures ParsedOrders(lines[..i + 1]) == ParsedOrders(lines[..i]) + [ParseLine(lines[i]).order]
  {
    var pre, next := lines[..i], lines[..i + 1];
    forall k | 0 <= k < i + 1 ensures ParseLine(next[k]).Parsed? {
      if k < i {
        assert next[k] == pre[k];
      }
    }
    var a, b := ParsedOrders(next), ParsedOrders(pre) + [ParseLine(lines[i]).order];
    forall k | 0 <= k < i + 1 ensures a[k] == b[k] {
      if k < i {
        assert next[k] == pre[k];
      }
    }
  }

  /** The first line that does not parse, after lines that all do, is FirstBadLine. */
  lemma FirstBadLineAt(lines: seq<string>, i: nat)
    requires i < |lines| && ParseLine(lines[i]).Rejected?
    requires forall k :: 0 <= k < i ==> ParseLine(lines[k]).Parsed?
    ensures FirstBadLine(lines) == i && !AllParse(lines)
  {
  }

  // ===========================================================================
  // Aggregator
  // ===========================================================================

  /** The foodMenuID of the most recent record of `eater` in `p`, if any. */
  function LastItem(p: seq<Order>, eater: int): Option<int> {
    if p == [] then None
    else if p[|p| - 1].eaterID == eater then Some(p[|p| - 1].foodMenuID)
    else LastItem(p[..|p| - 1], eater)
  }

  /** Appending a record makes its item the latest of its eater and changes no other eater's. */
  lemma LastItemSnoc(p: seq<Order>, o: Order)
    ensures forall e :: LastItem(p + [o], e) == if e == o.eaterID then Some(o.foodMenuID) else LastItem(p, e)
  {
    assert (p + [o])[..|p|] == p;
  }

  /** LastItem names the item of the eater's latest record: no later record is the eater's. */
  lemma {:induction false} LastItemIsMostRecent(p: seq<Order>, eater: int, item: int)
    ensures LastItem(p, eater) == Some(item)
        <==> exists j :: 0 <= j < |p| && p[j] == Order(eater, item)
                         && forall k :: j < k < |p| ==> p[k].eaterID != eater
  {
    if p != [] {
      var n := |p| - 1;
      LastItemIsMostRecent(p[..n], eater, item);
      if p[n].eaterID == eater {
        if LastItem(p, eater) != Some(item) {
          assert p[n].foodMenuID != item;
          forall j | 0 <= j < |p| && p[j] == Order(eater, item)
            ensures exists k :: j < k < |p| && p[k].eaterID == eater
          {
            assert j < n;
          }
        }
      } else {
        assert forall j :: 0 <= j < n ==> p[..n][j] == p[j];
      }
    }
  }

  /** Record `j` repeats the item of its eater's most recent earlier record. */
  predicate RepeatsPrevious(orders: seq<Order>, j: nat)
    requires j < |orders|
  {
    LastItem(orders[..j], orders[j].eaterID) == Some(orders[j].foodMenuID)
  }

  /** Some record repeats its eater's most recent earlier item: the log is refused. */
  predicate HasDuplicate(orders: seq<Order>) {
    exists j :: 0 <= j < |orders| && RepeatsPrevious(orders, j)
  }

  /** The number of records for menu item `item`. */
  function Count(p: seq<Order>, item: int): nat {
    if p == [] then 0
    else Count(p[..|p| - 1], item) + (if p[|p| - 1].foodMenuID == item then 1 else 0)
  }

  /** The distinct menu items of the records. */
  function Items(p: seq<Order>): set<int> {
    set o | o in p :: o.foodMenuID
  }

  /**
    The tally of records per menu item, one record at a time from the first:
    an item seen for the first time enters at 1, a seen item goes up by one.
    ItemCountsMeaning shows it maps exactly the ordered items to their Count.
   */
  function ItemCounts(p: seq<Order>): map<int, int> {
    if p == [] then map[]
    else
      var c := ItemCounts(p[..|p| - 1]);
      var item := p[|p| - 1].foodMenuID;
      c[item := (if item in c then c[item] else 0) + 1]
  }

  /** Counting over two runs of records adds their counts. */
  lemma {:induction false} CountConcat(p: seq<Order>, q: seq<Order>, item: int)
    ensures Count(p + q, item) == Count(p, item) + Count(q, item)
  {
    if q == [] {
      assert p + q == p;
    } else {
      var n := |q| - 1;
      assert (p + q)[..|p + q| - 1] == p + q[..n];
      CountConcat(p, q[..n], item);
    }
  }

  /** Appending a record adds its menu item to the items. */
  lemma ItemsSnoc(p: seq<Order>, o: Order)
    ensures Items(p + [o]) == Items(p) + {o.foodMenuID}
  {
    var q := p + [o];
    forall x | x in Items(q) ensures x in Items(p) + {o.foodMenuID} {
      var r :| r in q && r.foodMenuID == x;
      if r != o {
        assert r in p;
      }
    }
    forall x | x in Items(p) ensures x in Items(q) {
      var r :| r in p && r.foodMenuID == x;
      assert r in q;
    }
    assert o in q;
  }

  /**
    fetchCountOfOrderedItemByEater: walks the records, remembering each
    eater's most recent item and counting records per item. A record whose
    eater's most recent item is the same item is a duplicate: the walk stops
    with an incorrect-input error and no map. Otherwise the map counts every
    record.
   */
  method FetchCountOfOrderedItemByEater(orderDetails: seq<Order>)
    returns (orderedItemCount: Option<map<int, int>>, err: Option<Error>)
    ensures err.Some? <==> HasDuplicate(orderDetails)
    ensures err.Some? ==> err.value == NewIncorrectInputError(IncorrectInputErr) && orderedItemCount.None?
    ensures err.None? ==> orderedItemCount == Some(ItemCounts(orderDetails))
  {
    var counts: map<int, int> := map[];
    var consumed: map<int, int> := map[];
    var i := 0;
    while i < |orderDetails|
      invariant 0 <= i <= |orderDetails|
      invariant forall j :: 0 <= j < i ==> !RepeatsPrevious(orderDetails, j)
      invariant forall e :: e in consumed <==> LastItem(orderDetails[..i], e).Some?
      invariant forall e :: e in consumed ==> LastItem(orderDetails[..i], e) == Some(consumed[e])
      invariant counts == ItemCounts(orderDetails[..i])
    {
      var orderedItem := orderDetails[i];
      if orderedItem.eaterID in consumed {
        var prevFoodMenuID := consumed[orderedItem.eaterID];
        if prevFoodMenuID == orderedItem.foodMenuID {
          assert RepeatsPrevious(orderDetails, i);
          return None, Some(NewIncorrectInputError(IncorrectInputErr));
        }
      }
      assert !RepeatsPrevious(orderDetails, i);
      var item := orderedItem.foodMenuID;
      var nextCounts := counts[item := (if item in counts then counts[item] else 0) + 1];
      assert nextCounts == ItemCounts(orderDetails[..i + 1]) by {
        ItemCountsStep(orderDetails, i);
      }
      var nextConsumed := consumed[orderedItem.eaterID := item];
      assert forall e :: e in nextConsumed <==> LastItem(orderDetails[..i + 1], e).Some? by {
        LastItemStep(orderDetails, i);
      }
      assert forall e :: e in nextConsumed ==> LastItem(orderDetails[..i + 1], e) == Some(nextConsumed[e]) by {
        LastItemStep(orderDetails, i);
      }
      counts := nextCounts;
      consumed := nextConsumed;
      i := i + 1;
    }
    assert orderDetails[..i] == orderDetails;
    return Some(counts), None;
  }

  /** One more record of the walk adds one to its item's count, from zero if it was absent. */
  lemma ItemCountsStep(p: seq<Order>, i: nat)
    requires i < |p|
    ensures ItemCounts(p[..i + 1]) == ItemCounts(p[..i])[p[i].foodMenuID :=
      (if p[i].foodMenuID in ItemCounts(p[..i]) then ItemCounts(p[..i])[p[i].foodMenuID] else 0) + 1]
  {
    assert p[..i + 1][..i] == p[..i];
  }

  /** LastItemSnoc for the prefixes the aggregator walks. */
  lemma LastItemStep(p: seq<Order>, i: nat)
    requires i < |p|
    ensures forall e :: LastItem(p[..i + 1], e) == if e == p[i].eaterID then Some(p[i].foodMenuID) else LastItem(p[..i], e)
  {
    assert p[..i + 1] == p[..i] + [p[i]];
    LastItemSnoc(p[..i], p[i]);
  }

  /**
    The count map's keys are exactly the menu items ordered, each mapped to
    its number of records, which is at least one; an item not in the map has
    no record.
   */
  lemma {:induction false} ItemCountsMeaning(orders: seq<Order>)
    ensures ItemCounts(orders).Keys == Items(orders)
    ensures forall item :: item in ItemCounts(orders) ==>
      ItemCounts(orders)[item] == Count(orders, item) >= 1
    ensures forall item :: item !in ItemCounts(orders) ==> Count(orders, item) == 0
  {
    if orders == [] {
      assert Items(orders) == {};
    } else {
      var p := orders[..|orders| - 1];
      var o := orders[|orders| - 1];
      assert orders == p + [o];
      ItemCountsMeaning(p);
      ItemsSnoc(p, o);
    }
  }

  /** An eater with no record has no most recent item. */
  lemma {:induction false} LastItemAbsent(p: seq<Order>, eater: int)
    requires forall j :: 0 <= j < |p| ==> p[j].eaterID != eater
    ensures LastItem(p, eater) == None
  {
    if p != [] {
      LastItemAbsent(p[..|p| - 1], eater);
    }
  }

  /** A log in which no eater orders twice is never refused as a duplicate. */
  lemma DistinctEatersNoDuplicate(orders: seq<Order>)
    requires forall i, j :: 0 <= i < j < |orders| ==> orders[i].eaterID != orders[j].eaterID
    ensures !HasDuplicate(orders)
  {
    forall j | 0 <= j < |orders| ensures !RepeatsPrevious(orders, j) {
      LastItemAbsent(orders[..j], orders[j].eaterID);
    }
  }

  /**
    A refused log always holds one (eater, item) pair twice; the converse
    fails, since only the eater's most recent item is compared.
   */
  lemma DuplicateIsRepeatedPair(orders: seq<Order>)
    requires HasDuplicate(orders)
    ensures exists i, j :: 0 <= i < j < |orders| && orders[i] == orders[j]
  {
    var j :| 0 <= j < |orders| && RepeatsPrevious(orders, j);
    var o := orders[j];
    LastItemIsMostRecent(orders[..j], o.eaterID, o.foodMenuID);
    var i :| 0 <= i < j && orders[..j][i] == Order(o.eaterID, o.foodMenuID);
    assert orders[i] == orders[j];
  }

  /**
    The converse for the records that do get compared: a record equal to an
    earlier one of the same eater, with no record of that eater in between, is
    refused, whatever other eaters ordered meanwhile.
   */
  lemma RepeatedPairIsDuplicate(orders: seq<Order>, i: nat, j: nat)
    requires i < j < |orders| && orders[i] == orders[j]
    requires forall k :: i < k < j ==> orders[k].eaterID != orders[j].eaterID
    ensures HasDuplicate(orders)
  {
    var o := orders[j];
    assert orders[..j][i] == Order(o.eaterID, o.foodMenuID);
    LastItemIsMostRecent(orders[..j], o.eaterID, o.foodMenuID);
    assert RepeatsPrevious(orders, j);
  }

  /** An eater may order X, then Y, then X again: only an immediate repeat is refused. */
  lemma NonAdjacentRepeatAccepted(eater: int, x: int, y: int)
    requires x != y
    ensures !HasDuplicate([Order(eater, x), Order(eater, y), Order(eater, x)])
    ensures HasDuplicate([Order(eater, x), Order(eater, x)])
  {
    var orders := [Order(eater, x), Order(eater, y), Order(eater, x)];
    assert orders[..1] == [Order(eater, x)];
    assert orders[..2] == [Order(eater, x), Order(eater, y)];
    assert !RepeatsPrevious(orders, 0) && !RepeatsPrevious(orders, 1) && !RepeatsPrevious(orders, 2);
    var twice := [Order(eater, x), Order(eater, x)];
    assert twice[..1] == [Order(eater, x)];
    assert RepeatsPrevious(twice, 1);
  }

  // ===========================================================================
  // Ranker
  // ===========================================================================

  /**
    `ids` ranks the menu items of `counts`: it holds every key exactly once,
    and counts never increase along it. The order among equal counts is left
    open.
   */
  ghost predicate IsRanking(ids: seq<int>, counts: map<int, int>) {
    && multiset(ids) == multiset(counts.Keys)
    && (forall i :: 0 <= i < |ids| ==> ids[i] in counts)
    && (forall i, j :: 0 <= i < j < |ids| ==> counts[ids[i]] >= counts[ids[j]])
  }

  /** The position of a largest count among a[i..]. */
  method MaxCountFrom(a: array<int>, counts: map<int, int>, i: int) returns (m: int)
    requires 0 <= i < a.Length
    requires forall k :: i <= k < a.Length ==> a[k] in counts
    ensures i <= m < a.Length
    ensures forall k :: i <= k < a.Length ==> counts[a[m]] >= counts[a[k]]
  {
    m := i;
    var j := i + 1;
    while j < a.Length
      invariant i <= m < a.Length && i < j <= a.Length
      invariant forall k :: i <= k < j ==> counts[a[m]] >= counts[a[k]]
    {
      if counts[a[j]] > counts[a[m]] {
        m := j;
      }
      j := j + 1;
    }
  }

  /** Sorts `a` in place so that counts do not increase (selection sort; not stable). */
  method SortByCountDesc(a: array<int>, counts: map<int, int>)
    requires forall k :: 0 <= k < a.Length ==> a[k] in counts
    modifies a
    ensures forall k :: 0 <= k < a.Length ==> a[k] in counts
    ensures forall p, q :: 0 <= p < q < a.Length ==> counts[a[p]] >= counts[a[q]]
    ensures multiset(a[..]) == old(multiset(a[..]))
  {
    var i := 0;
    while i < a.Length
      invariant 0 <= i <= a.Length
      invariant forall k :: 0 <= k < a.Length ==> a[k] in counts
      invariant forall p, q :: 0 <= p < q < i ==> counts[a[p]] >= counts[a[q]]
      invariant forall p, q :: 0 <= p < i <= q < a.Length ==> counts[a[p]] >= counts[a[q]]
      invariant multiset(a[..]) == old(multiset(a[..]))
    {
      var m := MaxCountFrom(a, counts, i);
      a[i], a[m] := a[m], a[i];
      i := i + 1;
    }
  }

  /** A set with no element is empty (used to pick the next map key). */
  lemma NoElementMeansEmpty(s: set<int>)
    ensures (forall x :: x !in s) ==> s == {}
  {
    if forall x :: x !in s {
      assert forall x :: x in s <==> x in {};
    }
  }

  /**
    sortItemsByCountDesc: appends the keys of the count map in whatever order
    the map yields them, then sorts them in place by descending count.
   */
  method SortItemsByCountDesc(orderedItemCount: map<int, int>) returns (sortedMenuIDs: seq<int>)
    ensures IsRanking(sortedMenuIDs, orderedItemCount)
  {
    var keys: seq<int> := [];
    var rest := orderedItemCount.Keys;
    while rest != {}
      invariant rest <= orderedItemCount.Keys
      invariant forall k :: 0 <= k < |keys| ==> keys[k] in orderedItemCount
      invariant multiset(keys) + multiset(rest) == multiset(orderedItemCount.Keys)
      decreases |rest|
    {
      NoElementMeansEmpty(rest);
      var menuID :| menuID in rest;
      keys := keys + [menuID];
      rest := rest - {menuID};
    }
    var ids := new int[|keys|](i requires 0 <= i < |keys| => keys[i]);
    assert ids[..] == keys;
    SortByCountDesc(ids, orderedItemCount);
    sortedMenuIDs := ids[..];
  }

  /** A ranking lists each key of the map once: as many entries as keys, none twice. */
  lemma RankingIsPermutation(ids: seq<int>, counts: map<int, int>)
    requires IsRanking(ids, counts)
    ensures |ids| == |counts|
    ensures forall k :: k in counts <==> k in ids
    ensures forall i, j :: 0 <= i < j < |ids| ==> ids[i] != ids[j]
  {
    assert |multiset(ids)| == |multiset(counts.Keys)|;
    forall k ensures k in counts <==> k in ids {
      assert k in ids <==> k in multiset(ids);
      assert k in counts <==> k in multiset(counts.Keys);
    }
    forall i, j | 0 <= i < j < |ids| ensures ids[i] != ids[j] {
      OccurrencesOfPair(ids, i, j);
      assert multiset(counts.Keys)[ids[j]] <= 1;
    }
  }

  /** The value at position `j` occurs at least twice in the multiset when position `i` holds it too. */
  lemma OccurrencesOfPair(ids: seq<int>, i: nat, j: nat)
    requires i < j < |ids|
    ensures multiset(ids)[ids[j]] >= if ids[i] == ids[j] then 2 else 1
  {
    assert ids == ids[..i] + [ids[i]] + ids[i + 1..j] + [ids[j]] + ids[j + 1..];
  }

  /** The sum of the counts of `ids`. */
  function SumCounts(ids: seq<int>, counts: map<int, int>): int
    requires forall i :: 0 <= i < |ids| ==> ids[i] in counts
  {
    if ids == [] then 0 else counts[ids[0]] + SumCounts(ids[1..], counts)
  }

  /** The sum over `ids` of the number of records of each. */
  function SumOfCounts(ids: seq<int>, p: seq<Order>): nat {
    if ids == [] then 0 else Count(p, ids[0]) + SumOfCounts(ids[1..], p)
  }

  /** In a list without repeats a listed item occurs once. */
  lemma {:induction false} OccursOnce(ids: seq<int>, x: int)
    requires forall i, j :: 0 <= i < j < |ids| ==> ids[i] != ids[j]
    requires x in ids
    ensures multiset(ids)[x] == 1
  {
    assert ids == [ids[0]] + ids[1..];
    if ids[0] != x {
      OccursOnce(ids[1..], x);
    } else {
      assert x !in ids[1..];
    }
  }

  /** Adding a record adds to the sum once for each time its item is listed. */
  lemma {:induction false} SumOfCountsSnoc(ids: seq<int>, p: seq<Order>, o: Order)
    ensures SumOfCounts(ids, p + [o]) == SumOfCounts(ids, p) + multiset(ids)[o.foodMenuID]
  {
    assert (p + [o])[..|p|] == p;
    if ids != [] {
      assert ids == [ids[0]] + ids[1..];
      SumOfCountsSnoc(ids[1..], p, o);
    }
  }

  /** Summed over a list holding each ordered item once, the counts give the number of records. */
  lemma {:induction false} SumOfCountsIsLength(ids: seq<int>, p: seq<Order>)
    requires forall i, j :: 0 <= i < j < |ids| ==> ids[i] != ids[j]
    requires Items(p) <= set i | 0 <= i < |ids| :: ids[i]
    ensures SumOfCounts(ids, p) == |p|
  {
    if p == [] {
      SumOfCountsEmpty(ids);
    } else {
      var q := p[..|p| - 1];
      var o := p[|p| - 1];
      assert p == q + [o];
      assert Items(q) <= Items(p) by {
        forall x | x in Items(q) ensures x in Items(p) {
          var r :| r in q && r.foodMenuID == x;
          assert r in p;
        }
      }
      SumOfCountsIsLength(ids, q);
      SumOfCountsSnoc(ids, q, o);
      assert o in p;
      assert o.foodMenuID in Items(p);
      OccursOnce(ids, o.foodMenuID);
    }
  }

  lemma {:induction false} SumOfCountsEmpty(ids: seq<int>)
    ensures SumOfCounts(ids, []) == 0
  {
    if ids != [] {
      SumOfCountsEmpty(ids[1..]);
    }
  }

  lemma {:induction false} SumCountsOfItemCounts(ids: seq<int>, p: seq<Order>)
    requires forall i :: 0 <= i < |ids| ==> ids[i] in ItemCounts(p)
    ensures SumCounts(ids, ItemCounts(p)) == SumOfCounts(ids, p)
  {
    if ids != [] {
      ItemCountsMeaning(p);
      SumCountsOfItemCounts(ids[1..], p);
    }
  }

  /** Along any ranking of the count map the counts add up to the number of records. */
  lemma RankedCountsSum(orders: seq<Order>, ids: seq<int>)
    requires IsRanking(ids, ItemCounts(orders))
    ensures SumCounts(ids, ItemCounts(orders)) == |orders|
  {
    RankingIsPermutation(ids, ItemCounts(orders));
    SumCountsOfItemCounts(ids, orders);
    ItemCountsMeaning(orders);
    assert Items(orders) <= set i | 0 <= i < |ids| :: ids[i] by {
      forall x | x in Items(orders) ensures x in set i | 0 <= i < |ids| :: ids[i] {
        assert x in ItemCounts(orders);
        var i :| 0 <= i < |ids| && ids[i] == x;
      }
    }
    SumOfCountsIsLength(ids, orders);
  }

  // ===========================================================================
  // FetchTopThreeOrderedItems
  // ===========================================================================

  /**
    The public entry point: the extension gate, then the parser, the
    aggregator and the ranker, stopping at the first error. `file` is None
    when the file cannot be opened. On every error both results are nil; on
    success both are set.
   */
  method FetchTopThreeOrderedItems(fileName: string, file: Option<seq<string>>)
    returns (sortedMenuIDs: Option<seq<int>>, orderedItemCounts: Option<map<int, int>>, err: Option<Error>)
    ensures err.Some? <==> sortedMenuIDs.None?
    ensures err.Some? <==> orderedItemCounts.None?
    ensures !ValidExtension(fileName) ==> err == Some(NewUnknownError(InvalidFileErr))
    ensures ValidExtension(fileName) && file.None? ==> err == Some(NewNotFoundError(FileNotFoundErr))
    ensures ValidExtension(fileName) && file.Some? ==>
      (err.Some? <==> !AllParse(file.value) || HasDuplicate(ParsedOrders(file.value)))
    ensures ValidExtension(fileName) && file.Some? && err.Some? ==>
      err == Some(NewIncorrectInputError(IncorrectInputErr))
    ensures err.None? ==>
      && file.Some? && AllParse(file.value)
      && orderedItemCounts.value == ItemCounts(ParsedOrders(file.value))
      && IsRanking(sortedMenuIDs.value, orderedItemCounts.value)
  {
    sortedMenuIDs, orderedItemCounts := None, None;
    if !ValidExtension(fileName) {
      err := Some(NewUnknownError(InvalidFileErr));
      return;
    }
    if file.None? {
      err := Some(NewNotFoundError(FileNotFoundErr));
      return;
    }
    var orderDetails;
    orderDetails, err := FetchOrderDetails(file.value);
    if err.Some? {
      return;
    }
    orderedItemCounts, err := FetchCountOfOrderedItemByEater(orderDetails);
    if err.Some? {
      return;
    }
    var ranked := SortItemsByCountDesc(orderedItemCounts.value);
    sortedMenuIDs := Some(ranked);
  }
}
