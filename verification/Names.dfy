/** Where the names of data files come from: get_time counts up and new_record_handle
retries until the name is not taken. */
module Names {
  import opened Options
  import opened Bytes
  import opened Scanf

  const DATE := 20150405
  const FIRST_TIME := 212213

  /** The static counters of get_time. */
  class TimeSource {
    var y: nat

    constructor ()
      ensures y == 212_213
    {
      y := FIRST_TIME;
    }

    /** The counters of a process that has already given out times. */
    constructor From(y: nat)
      ensures this.y == y
    {
      this.y := y;
    }

    method GetTime() returns (date: seq<byte>, time: seq<byte>)
      requires y < INT_MAX
      modifies this
      ensures y == old(y) + 1
      ensures date == Decimal(DATE) && time == Decimal(y)
    {
      y := y + 1;
      date, time := Decimal(DATE), Decimal(y);
    }
  }

  function FileName(date: seq<byte>, time: seq<byte>): seq<byte> {
    Ascii("data_") + (date + (Ascii("_") + (time + Ascii(".dat"))))
  }

  /** The file name that goes with one value of the counter. */
  function Name(stamp: nat): seq<byte> {
    FileName(Decimal(DATE), Decimal(stamp))
  }

  /** What a reader finds in a file name: the label, the fixed date, the counter, the suffix. */
  lemma NameReads(stamp: nat)
    ensures Scanned(Name(stamp), Text(Ascii("data_"), Dec(Text(Ascii("_"), Dec(Text(Ascii(".dat"), End))))))
         == Some([Num(20_150_405), Num(stamp)])
  {
    hide Decimal, Scanned;
    var f3 := Text(Ascii(".dat"), End);
    ReadEnd();
    ReadText(Ascii(".dat"), [], End, []);
    assert Ascii(".dat") + [] == Ascii(".dat");
    var f1 := Text(Ascii("_"), Dec(f3));
    ReadDec(stamp, Ascii(".dat"), f3, []);
    var s1 := Decimal(stamp) + Ascii(".dat");
    ReadText(Ascii("_"), s1, Dec(f3), [Num(stamp)] + []);
    ReadDec(DATE, Ascii("_") + s1, f1, [Num(stamp)] + []);
    ReadText(Ascii("data_"), Decimal(DATE) + (Ascii("_") + s1), Dec(f1), [Num(DATE)] + ([Num(stamp)] + []));
    assert [Num(DATE)] + ([Num(stamp)] + []) == [Num(DATE), Num(stamp)];
  }

  lemma NameInjective(m: nat, n: nat)
    requires Name(m) == Name(n)
    ensures m == n
  {
    NameReads(m);
    NameReads(n);
    assert [Num(DATE), Num(m)][1] == Num(m) && [Num(DATE), Num(n)][1] == Num(n);
  }

  /** Names, dates and times are C strings that fit the fields they are copied to. */
  lemma NameFits(stamp: nat)
    requires stamp <= INT_MAX
    ensures |Decimal(DATE)| < 32 && 0 !in Decimal(DATE)
    ensures |Decimal(stamp)| < 32 && 0 !in Decimal(stamp)
    ensures |Name(stamp)| < 128 && 0 !in Name(stamp)
  {
    IntFitsTenDigits(DATE);
    IntFitsTenDigits(stamp);
  }

  // ---- the retry loop ----

  /** The names in use that the counter has not passed yet. */
  ghost function Ahead(names: set<seq<byte>>, y: nat): set<seq<byte>> {
    set n | n in names && exists k: nat :: k > y && Name(k) == n
  }

  lemma AheadShrinks(names: set<seq<byte>>, y: nat)
    ensures Ahead(names, y + 1) == Ahead(names, y) - {Name(y + 1)}
    ensures Name(y + 1) in names ==> Name(y + 1) in Ahead(names, y)
    ensures |Ahead(names, y + 1)| == |Ahead(names, y)| - if Name(y + 1) in names then 1 else 0
  {
    hide Name;
    var next := Name(y + 1);
    assert next !in Ahead(names, y + 1) by {
      if next in Ahead(names, y + 1) {
        var k: nat :| k > y + 1 && Name(k) == next;
        NameInjective(k, y + 1);
      }
    }
    forall n | n in Ahead(names, y) - {next}
      ensures n in Ahead(names, y + 1)
    {
      var k: nat :| k > y && Name(k) == n;
      assert k != y + 1;
    }
    assert Ahead(names, y + 1) == Ahead(names, y) - {next};
  }

  /** The passes that the retry loop has left at most, standing at `y`. */
  ghost function Tries(names: set<seq<byte>>, y: nat): nat {
    |Ahead(names, y)| + if Name(y) in names then 1 else 0
  }

  lemma TriesStep(names: set<seq<byte>>, y: nat)
    ensures Tries(names, y + 1) == |Ahead(names, y)|
  {
    AheadShrinks(names, y);
  }

  /** The counter value at which the retry loop stops: the first one after `y` whose name
  is free. The loop cannot run past the names that are still ahead of it. */
  ghost function FirstFree(names: set<seq<byte>>, y: nat): (stamp: nat)
    ensures stamp > y && Name(stamp) !in names
    ensures forall k :: y < k < stamp ==> Name(k) in names
    ensures stamp + |Ahead(names, stamp)| == y + 1 + |Ahead(names, y)|
    decreases |Ahead(names, y)|
  {
    AheadShrinks(names, y);
    if Name(y + 1) in names then FirstFree(names, y + 1) else y + 1
  }

  /** The first free counter value is the only one with its two properties. */
  lemma FirstFreeUnique(names: set<seq<byte>>, y: nat, stamp: nat)
    requires stamp > y && Name(stamp) !in names
    requires forall k :: y < k < stamp ==> Name(k) in names
    ensures stamp == FirstFree(names, y)
  {
    var taken := Name(FirstFree(names, y));
  }

  /** Creating or deleting one file. */
  lemma AheadOfChange(names: set<seq<byte>>, stamp: nat, y: nat)
    requires stamp <= y
    ensures Ahead(names + {Name(stamp)}, y) == Ahead(names, y)
  {
    forall n | n in Ahead(names + {Name(stamp)}, y)
      ensures n in names
    {
      var k: nat :| k > y && Name(k) == n;
      if n == Name(stamp) {
        NameInjective(k, stamp);
      }
    }
    assert Ahead(names + {Name(stamp)}, y) == Ahead(names, y);
  }

  lemma AheadMonotone(fewer: set<seq<byte>>, names: set<seq<byte>>, y: nat)
    requires fewer <= names
    ensures |Ahead(fewer, y)| <= |Ahead(names, y)|
  {
    assert Ahead(fewer, y) <= Ahead(names, y);
    SubsetSize(Ahead(fewer, y), Ahead(names, y));
  }

  lemma {:induction false} SubsetSize<T>(a: set<T>, b: set<T>)
    requires a <= b
    ensures |a| <= |b|
  {
    if x :| x in a {
      SubsetSize(a - {x}, b - {x});
    }
  }
}
