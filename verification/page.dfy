/** The drop-schedule logic of the home page's data loader: which partner is
    featured today, and which scheduled drops are upcoming and which are past.

    The clock, `date-fns`' `format` and `new Date(key).getTime()` are not
    modelled; they enter as parameters:
    - `now`: milliseconds since the epoch, as `new Date().getTime()` returns;
    - `format`: `now` rendered as a `yyyy-MM-dd` day in the server's time zone;
    - `keyTime`: the timestamp a schedule key parses to, `None` when the key
      is not a valid date (`getTime()` is then `NaN`). */
module Page {
  import opened Wrappers
  import opened Schedule

  /* ---------------------------------------------------------------------- */
  /* Featured partner                                                        */
  /* ---------------------------------------------------------------------- */

  /** `schedule[today] || schedule[Object.keys(schedule)[0]]`. With an empty
      schedule the first key is `undefined` and so is its value. */
  function FeaturedPartner(now: int, format: int -> string, s: ScheduleTable): (r: Option<Partner>)
    ensures r.Some? ==> exists i :: 0 <= i < |s| && s[i].partner == r
    ensures |s| == 0 ==> r == None
  {
    var today := format(now);
    var fallback := if |s| == 0 then None else Lookup(s, Keys(s)[0]);
    Lookup(s, today).OrElse(fallback)
  }

  /** A partner scheduled for today is the featured partner. */
  lemma FeaturedIsToday(now: int, format: int -> string, s: ScheduleTable, i: nat)
    requires UniqueKeys(s)
    requires i < |s| && s[i].key == format(now) && s[i].partner.Some?
    ensures FeaturedPartner(now, format, s) == s[i].partner
  {
    LookupKey(s, i);
  }

  /** Without a defined partner under today's key, the partner under the first
      key is featured (which may itself be `undefined`); an empty schedule
      features nobody. */
  lemma FeaturedFallback(now: int, format: int -> string, s: ScheduleTable)
    requires forall i :: 0 <= i < |s| && s[i].key == format(now) ==> s[i].partner.None?
    ensures FeaturedPartner(now, format, s) == if |s| == 0 then None else s[0].partner
  {
  }

  /* ---------------------------------------------------------------------- */
  /* Upcoming / past classification, as the source computes it               */
  /* ---------------------------------------------------------------------- */

  /** The result of `date-fns`' `compareAsc`: -1, 0, 1, or `NaN` when a date
      is invalid (`diff` is then `NaN`, neither negative nor positive). */
  datatype Comparison = Less | Equal | Greater | Unordered

  /** `compareAsc(left, right)`, which subtracts the timestamps and returns the
      sign of the difference, or the difference itself when it is not signed. */
  function CompareAsc(left: int, right: Option<int>): (r: Comparison)
    ensures r == Less <==> right.Some? && left < right.value
    ensures r == Equal <==> right.Some? && left == right.value
    ensures r == Greater <==> right.Some? && left > right.value
    ensures r == Unordered <==> right.None?
  {
    match right
    case None => Unordered
    case Some(t) =>
      var diff := left - t;
      if diff < 0 then Less else if diff > 0 then Greater else Equal
  }

  /** `TabsComponentProps`: the two lists the tabbed drop browser shows. */
  datatype Tabs = Tabs(upcomingDrops: seq<Drop>, pastDrops: seq<Drop>)

  /** `INITIAL_TABS`, the fold's starting value. */
  function InitialTabs(): (r: Tabs)
    ensures r.upcomingDrops == [] && r.pastDrops == []
  {
    Tabs([], [])
  }

  /** The `reduce` callback for one key `date`: skip it when `now` is exactly
      its timestamp or its partner is `undefined`, otherwise append the
      partner's drop to `upcomingDrops` when `now` is earlier and to
      `pastDrops` in every other case. */
  function Step(now: int, keyTime: string -> Option<int>, s: ScheduleTable, acc: Tabs, date: string): (r: Tabs)
    ensures ClassOf(now, keyTime, Entry(date, Lookup(s, date))) == Skipped ==> r == acc
    ensures ClassOf(now, keyTime, Entry(date, Lookup(s, date))) == Upcoming ==>
      r == Tabs(acc.upcomingDrops + [Lookup(s, date).value.drop], acc.pastDrops)
    ensures ClassOf(now, keyTime, Entry(date, Lookup(s, date))) == Past ==>
      r == Tabs(acc.upcomingDrops, acc.pastDrops + [Lookup(s, date).value.drop])
  {
    var comparison := CompareAsc(now, keyTime(date));
    var partner := Lookup(s, date);
    if comparison == Equal || partner.None? then acc
    else if comparison == Less then acc.(upcomingDrops := acc.upcomingDrops + [partner.value.drop])
    else acc.(pastDrops := acc.pastDrops + [partner.value.drop])
  }

  /** `dates.reduce(callback, acc)`: a left fold that copies the accumulator
      and never removes what it holds. */
  function Reduce(now: int, keyTime: string -> Option<int>, s: ScheduleTable, acc: Tabs, dates: seq<string>): (r: Tabs)
    ensures acc.upcomingDrops <= r.upcomingDrops && acc.pastDrops <= r.pastDrops
    ensures |r.upcomingDrops| + |r.pastDrops| <= |acc.upcomingDrops| + |acc.pastDrops| + |dates|
    decreases |dates|
  {
    if dates == [] then acc
    else Reduce(now, keyTime, s, Step(now, keyTime, s, acc, dates[0]), dates[1..])
  }

  /** The `tabs` of the page data: the fold over the schedule's keys from
      `INITIAL_TABS`. */
  function ClassifyDrops(now: int, keyTime: string -> Option<int>, s: ScheduleTable): (r: Tabs)
    ensures |r.upcomingDrops| + |r.pastDrops| <= |s|
  {
    Reduce(now, keyTime, s, InitialTabs(), Keys(s))
  }

  /* ---------------------------------------------------------------------- */
  /* The classification as a reference definition over schedule positions    */
  /* ---------------------------------------------------------------------- */

  /** Where a schedule entry belongs. */
  datatype Class = Upcoming | Past | Skipped

  /** An entry is upcoming when its partner is defined and its day starts
      strictly after `now`; skipped when its partner is `undefined` or its day
      starts exactly at `now`; past otherwise, which includes a key that is not
      a valid date. */
  function ClassOf(now: int, keyTime: string -> Option<int>, e: Entry): Class {
    if e.partner.None? then Skipped
    else match keyTime(e.key)
      case None => Past
      case Some(t) => if now < t then Upcoming else if t < now then Past else Skipped
  }

  /** The positions among the first `n` schedule entries whose class is `c`,
      in increasing order: exactly those positions, each once. */
  function IndicesUpTo(now: int, keyTime: string -> Option<int>, s: ScheduleTable, c: Class, n: nat): (idx: seq<nat>)
    requires n <= |s|
    ensures forall j :: 0 <= j < |idx| ==> idx[j] < n && ClassOf(now, keyTime, s[idx[j]]) == c
    ensures c != Skipped ==> forall j :: 0 <= j < |idx| ==> s[idx[j]].partner.Some?
    decreases n
  {
    if n == 0 then []
    else
      IndicesUpTo(now, keyTime, s, c, n - 1)
        + (if ClassOf(now, keyTime, s[n - 1]) == c then [n - 1] else [])
  }

  /** The positions of all schedule entries whose class is `c`. */
  function Indices(now: int, keyTime: string -> Option<int>, s: ScheduleTable, c: Class): seq<nat> {
    IndicesUpTo(now, keyTime, s, c, |s|)
  }

  /** The featured drops of the partners at positions `idx`. */
  function DropsAt(s: ScheduleTable, idx: seq<nat>): (ds: seq<Drop>)
    requires forall j :: 0 <= j < |idx| ==> idx[j] < |s| && s[idx[j]].partner.Some?
    ensures |ds| == |idx|
  {
    seq(|idx|, j requires 0 <= j < |idx| => s[idx[j]].partner.value.drop)
  }

  /* ---------------------------------------------------------------------- */
  /* Properties of the fold                                                  */
  /* ---------------------------------------------------------------------- */

  /** Folding over one more key is one more callback step. */
  lemma {:induction false} ReduceSnoc(now: int, keyTime: string -> Option<int>, s: ScheduleTable, acc: Tabs, dates: seq<string>, date: string)
    ensures Reduce(now, keyTime, s, acc, dates + [date])
         == Step(now, keyTime, s, Reduce(now, keyTime, s, acc, dates), date)
    decreases |dates|
  {
    if dates != [] {
      assert (dates + [date])[1..] == dates[1..] + [date];
      ReduceSnoc(now, keyTime, s, Step(now, keyTime, s, acc, dates[0]), dates[1..], date);
    }
  }

  /** After the first `n` keys the fold holds, in each list, the drops of the
      entries of that class among the first `n`, in schedule order. */
  lemma {:induction false} ClassifyPrefix(now: int, keyTime: string -> Option<int>, s: ScheduleTable, n: nat)
    requires UniqueKeys(s)
    requires n <= |s|
    ensures Reduce(now, keyTime, s, InitialTabs(), Keys(s)[..n])
         == Tabs(DropsAt(s, IndicesUpTo(now, keyTime, s, Upcoming, n)),
                 DropsAt(s, IndicesUpTo(now, keyTime, s, Past, n)))
    decreases n
  {
    if n > 0 {
      var m := n - 1;
      var ks := Keys(s);
      ClassifyPrefix(now, keyTime, s, m);
      KeysPrefix(s, m);
      ReduceSnoc(now, keyTime, s, InitialTabs(), ks[..m], s[m].key);
      PrefixStep(now, keyTime, s, m);
    }
  }

  /** One callback step takes the classification of the first `m` entries to
      that of the first `m + 1`. */
  lemma PrefixStep(now: int, keyTime: string -> Option<int>, s: ScheduleTable, m: nat)
    requires UniqueKeys(s)
    requires m < |s|
    ensures var before := Tabs(DropsAt(s, IndicesUpTo(now, keyTime, s, Upcoming, m)),
                               DropsAt(s, IndicesUpTo(now, keyTime, s, Past, m)));
      Step(now, keyTime, s, before, s[m].key)
        == Tabs(DropsAt(s, IndicesUpTo(now, keyTime, s, Upcoming, m + 1)),
                DropsAt(s, IndicesUpTo(now, keyTime, s, Past, m + 1)))
  {
    var up, past := IndicesUpTo(now, keyTime, s, Upcoming, m), IndicesUpTo(now, keyTime, s, Past, m);
    var up', past' := IndicesUpTo(now, keyTime, s, Upcoming, m + 1), IndicesUpTo(now, keyTime, s, Past, m + 1);
    var before := Tabs(DropsAt(s, up), DropsAt(s, past));
    var r := Step(now, keyTime, s, before, s[m].key);
    StepAt(now, keyTime, s, before, m);
    var c := ClassOf(now, keyTime, s[m]);
    if c == Upcoming {
      assert up' == up + [m] && past' == past;
      DropsAtSnoc(s, up, m);
      assert r == Tabs(DropsAt(s, up'), DropsAt(s, past'));
    } else if c == Past {
      assert up' == up && past' == past + [m];
      DropsAtSnoc(s, past, m);
      assert r == Tabs(DropsAt(s, up'), DropsAt(s, past'));
    } else {
      assert up' == up && past' == past;
      assert r == Tabs(DropsAt(s, up'), DropsAt(s, past'));
    }
  }

  /** The callback on the m-th key files the m-th entry by its class. */
  lemma StepAt(now: int, keyTime: string -> Option<int>, s: ScheduleTable, acc: Tabs, m: nat)
    requires UniqueKeys(s)
    requires m < |s|
    ensures var r := Step(now, keyTime, s, acc, s[m].key);
      match ClassOf(now, keyTime, s[m])
      case Upcoming => r == Tabs(acc.upcomingDrops + [s[m].partner.value.drop], acc.pastDrops)
      case Past => r == Tabs(acc.upcomingDrops, acc.pastDrops + [s[m].partner.value.drop])
      case Skipped => r == acc
  {
    LookupKey(s, m);
    assert Entry(s[m].key, Lookup(s, s[m].key)) == s[m];
  }

  /** Adding a position adds that partner's drop at the end. */
  lemma DropsAtSnoc(s: ScheduleTable, idx: seq<nat>, i: nat)
    requires forall j :: 0 <= j < |idx| ==> idx[j] < |s| && s[idx[j]].partner.Some?
    requires i < |s| && s[i].partner.Some?
    ensures DropsAt(s, idx + [i]) == DropsAt(s, idx) + [s[i].partner.value.drop]
  {
  }

  /** `upcomingDrops` and `pastDrops` are exactly the featured drops of the
      upcoming and of the past entries, each in schedule order. */
  lemma ClassifyDropsSpec(now: int, keyTime: string -> Option<int>, s: ScheduleTable)
    requires UniqueKeys(s)
    ensures ClassifyDrops(now, keyTime, s)
         == Tabs(DropsAt(s, Indices(now, keyTime, s, Upcoming)), DropsAt(s, Indices(now, keyTime, s, Past)))
  {
    assert Keys(s)[..|s|] == Keys(s);
    ClassifyPrefix(now, keyTime, s, |s|);
  }

  /** The drops in class `c` are exactly the drops of the entries in class `c`. */
  lemma ClassMembers(now: int, keyTime: string -> Option<int>, s: ScheduleTable, c: Class, d: Drop)
    requires c != Skipped
    ensures var idx := Indices(now, keyTime, s, c);
      d in DropsAt(s, idx) <==>
      exists i :: 0 <= i < |s| && ClassOf(now, keyTime, s[i]) == c && s[i].partner.Some? && s[i].partner.value.drop == d
  {
    var idx := Indices(now, keyTime, s, c);
    var ds := DropsAt(s, idx);
    if d in ds {
      var j :| 0 <= j < |ds| && ds[j] == d;
      var i := idx[j];
      assert ClassOf(now, keyTime, s[i]) == c && s[i].partner.Some? && s[i].partner.value.drop == d;
    }
    if exists i :: 0 <= i < |s| && ClassOf(now, keyTime, s[i]) == c && s[i].partner.Some? && s[i].partner.value.drop == d {
      var i :| 0 <= i < |s| && ClassOf(now, keyTime, s[i]) == c && s[i].partner.Some? && s[i].partner.value.drop == d;
      IndexAtRank(now, keyTime, s, c, i);
      assert ds[|IndicesUpTo(now, keyTime, s, c, i)|] == d;
    }
  }

  /** Every upcoming drop belongs to a defined partner whose key lies strictly
      after `now`, and every such partner's drop is upcoming. */
  lemma UpcomingMembers(now: int, keyTime: string -> Option<int>, s: ScheduleTable, d: Drop)
    requires UniqueKeys(s)
    ensures d in ClassifyDrops(now, keyTime, s).upcomingDrops <==>
      exists i :: 0 <= i < |s| && s[i].partner.Some? && s[i].partner.value.drop == d
                  && keyTime(s[i].key).Some? && now < keyTime(s[i].key).value
  {
    ClassifyDropsSpec(now, keyTime, s);
    ClassMembers(now, keyTime, s, Upcoming, d);
    forall i | 0 <= i < |s|
      ensures (ClassOf(now, keyTime, s[i]) == Upcoming && s[i].partner.Some?)
          <==> (s[i].partner.Some? && keyTime(s[i].key).Some? && now < keyTime(s[i].key).value)
    {
    }
  }

  /** Every past drop belongs to a defined partner whose key lies strictly
      before `now` or is not a valid date, and every such partner's drop is
      past. */
  lemma PastMembers(now: int, keyTime: string -> Option<int>, s: ScheduleTable, d: Drop)
    requires UniqueKeys(s)
    ensures d in ClassifyDrops(now, keyTime, s).pastDrops <==>
      exists i :: 0 <= i < |s| && s[i].partner.Some? && s[i].partner.value.drop == d
                  && (keyTime(s[i].key).None? || keyTime(s[i].key).value < now)
  {
    ClassifyDropsSpec(now, keyTime, s);
    ClassMembers(now, keyTime, s, Past, d);
    forall i | 0 <= i < |s|
      ensures (ClassOf(now, keyTime, s[i]) == Past && s[i].partner.Some?)
          <==> (s[i].partner.Some? && (keyTime(s[i].key).None? || keyTime(s[i].key).value < now))
    {
    }
  }

  /** The positions below `n` are a prefix of the positions below `k`. */
  lemma {:induction false} IndicesUpToPrefix(now: int, keyTime: string -> Option<int>, s: ScheduleTable, c: Class, n: nat, k: nat)
    requires n <= k <= |s|
    ensures IndicesUpTo(now, keyTime, s, c, n) <= IndicesUpTo(now, keyTime, s, c, k)
    decreases k
  {
    if n < k {
      IndicesUpToPrefix(now, keyTime, s, c, n, k - 1);
    }
  }

  /** An entry of class `c` is listed at its rank: the number of entries of
      class `c` before it. */
  lemma IndexAtRank(now: int, keyTime: string -> Option<int>, s: ScheduleTable, c: Class, i: nat)
    requires i < |s| && ClassOf(now, keyTime, s[i]) == c
    ensures var rank := |IndicesUpTo(now, keyTime, s, c, i)|;
      rank < |Indices(now, keyTime, s, c)| && Indices(now, keyTime, s, c)[rank] == i
  {
    var before := IndicesUpTo(now, keyTime, s, c, i);
    assert IndicesUpTo(now, keyTime, s, c, i + 1) == before + [i];
    IndicesUpToPrefix(now, keyTime, s, c, i + 1, |s|);
  }

  /** An entry's drop sits in its class's list at the entry's rank. */
  lemma DropAtRank(now: int, keyTime: string -> Option<int>, s: ScheduleTable, c: Class, i: nat)
    requires UniqueKeys(s)
    requires c != Skipped
    requires i < |s| && ClassOf(now, keyTime, s[i]) == c
    ensures var tabs := ClassifyDrops(now, keyTime, s);
      var list := if c == Upcoming then tabs.upcomingDrops else tabs.pastDrops;
      var p := |IndicesUpTo(now, keyTime, s, c, i)|;
      p < |list| && list[p] == s[i].partner.value.drop
  {
    ClassifyDropsSpec(now, keyTime, s);
    IndexAtRank(now, keyTime, s, c, i);
  }

  /** Both lists keep schedule order: an entry's drop sits at its rank among
      the entries of its class, so of two entries of the same class the
      earlier one's drop comes first. */
  lemma OrderPreserved(now: int, keyTime: string -> Option<int>, s: ScheduleTable, c: Class, i: nat, k: nat)
    requires UniqueKeys(s)
    requires c != Skipped
    requires i < k < |s|
    requires ClassOf(now, keyTime, s[i]) == c && ClassOf(now, keyTime, s[k]) == c
    ensures var tabs := ClassifyDrops(now, keyTime, s);
      var list := if c == Upcoming then tabs.upcomingDrops else tabs.pastDrops;
      var p, q := |IndicesUpTo(now, keyTime, s, c, i)|, |IndicesUpTo(now, keyTime, s, c, k)|;
      p < q < |list| && list[p] == s[i].partner.value.drop && list[q] == s[k].partner.value.drop
  {
    DropAtRank(now, keyTime, s, c, i);
    DropAtRank(now, keyTime, s, c, k);
    assert IndicesUpTo(now, keyTime, s, c, i + 1) == IndicesUpTo(now, keyTime, s, c, i) + [i];
    IndicesUpToPrefix(now, keyTime, s, c, i + 1, k);
  }

  /** Each of the first `n` entries is counted in exactly one class. */
  lemma {:induction false} IndicesPartition(now: int, keyTime: string -> Option<int>, s: ScheduleTable, n: nat)
    requires n <= |s|
    ensures |IndicesUpTo(now, keyTime, s, Upcoming, n)| + |IndicesUpTo(now, keyTime, s, Past, n)|
          + |IndicesUpTo(now, keyTime, s, Skipped, n)| == n
    decreases n
  {
    if n > 0 {
      IndicesPartition(now, keyTime, s, n - 1);
    }
  }

  /** Each key with a defined partner and a timestamp other than `now`
      contributes exactly one drop to exactly one list, and no other key
      contributes: together the lists hold one drop per entry that is not
      skipped. */
  lemma ClassifyCount(now: int, keyTime: string -> Option<int>, s: ScheduleTable)
    requires UniqueKeys(s)
    ensures var tabs := ClassifyDrops(now, keyTime, s);
      |tabs.upcomingDrops| + |tabs.pastDrops| == |s| - |Indices(now, keyTime, s, Skipped)|
  {
    ClassifyDropsSpec(now, keyTime, s);
    IndicesPartition(now, keyTime, s, |s|);
  }

  /** A key whose day starts exactly at `now`, or whose partner is
      `undefined`, leaves the accumulator as it was. */
  lemma StepSkips(now: int, keyTime: string -> Option<int>, s: ScheduleTable, acc: Tabs, date: string)
    requires Lookup(s, date).None? || keyTime(date) == Some(now)
    ensures Step(now, keyTime, s, acc, date) == acc
  {
  }
}
