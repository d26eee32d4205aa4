/** Two-partner schedules worked through the page logic. */
module Scenarios {
  import opened Wrappers
  import opened Schedule
  import opened Page

  function FirstPartner(): Partner {
    Partner("coca-cola", "Coca-Cola", Drop("Girl with a Pearl Earring", "0x1DdB", "0.014", 0, 0), [])
  }

  function SecondPartner(): Partner {
    Partner("second", "Second", Drop("Second drop", "0x2222", "0.001", 0, 0), [])
  }

  /** `{"2023-08-13": P1, "2023-08-20": P2}` in insertion order. */
  function TwoWeeks(): ScheduleTable {
    [Entry("2023-08-13", Some(FirstPartner())), Entry("2023-08-20", Some(SecondPartner()))]
  }

  /** On a day between the two keys: the first partner's drop is past, the
      second's is upcoming, and with no key for today the first partner is
      featured. */
  lemma BetweenTheDrops(now: int, format: int -> string, keyTime: string -> Option<int>, t1: int, t2: int)
    requires keyTime("2023-08-13") == Some(t1) && keyTime("2023-08-20") == Some(t2)
    requires t1 < now < t2
    requires format(now) == "2023-08-15"
    ensures ClassifyDrops(now, keyTime, TwoWeeks())
         == Tabs([SecondPartner().drop], [FirstPartner().drop])
    ensures FeaturedPartner(now, format, TwoWeeks()) == Some(FirstPartner())
  {
    var s := TwoWeeks();
    var ks := Keys(s);
    assert ks == ["2023-08-13", "2023-08-20"] && ks[1..] == ["2023-08-20"];
    assert Lookup(s, "2023-08-13") == Some(FirstPartner());
    assert Lookup(s, "2023-08-20") == Some(SecondPartner());
    var a1 := Step(now, keyTime, s, InitialTabs(), "2023-08-13");
    assert a1 == Tabs([], [FirstPartner().drop]);
    assert Reduce(now, keyTime, s, a1, ks[1..]) == Tabs([SecondPartner().drop], [FirstPartner().drop]);
    assert Lookup(s, "2023-08-15") == None;
  }

  /** At exactly the second key's timestamp its drop is in neither list, and
      the partner scheduled for that day is featured. */
  lemma AtTheSecondDrop(now: int, format: int -> string, keyTime: string -> Option<int>, t1: int)
    requires keyTime("2023-08-13") == Some(t1) && keyTime("2023-08-20") == Some(now)
    requires t1 < now
    requires format(now) == "2023-08-20"
    ensures ClassifyDrops(now, keyTime, TwoWeeks()) == Tabs([], [FirstPartner().drop])
    ensures FeaturedPartner(now, format, TwoWeeks()) == Some(SecondPartner())
  {
    var s := TwoWeeks();
    var ks := Keys(s);
    assert ks == ["2023-08-13", "2023-08-20"] && ks[1..] == ["2023-08-20"];
    assert Lookup(s, "2023-08-13") == Some(FirstPartner());
    assert Lookup(s, "2023-08-20") == Some(SecondPartner());
    var a1 := Step(now, keyTime, s, InitialTabs(), "2023-08-13");
    assert a1 == Tabs([], [FirstPartner().drop]);
    assert Reduce(now, keyTime, s, a1, ks[1..]) == a1;
  }

  /** A key that is not a valid date compares as `NaN`, which is neither 0
      nor -1, so its drop is filed as past. */
  lemma InvalidKeyIsPast(now: int, keyTime: string -> Option<int>)
    requires keyTime("2023-08-13") == None
    ensures ClassifyDrops(now, keyTime, [Entry("2023-08-13", Some(FirstPartner()))])
         == Tabs([], [FirstPartner().drop])
  {
  }
}
