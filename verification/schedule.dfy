/** The schedule object: calendar-day keys (`yyyy-MM-dd`) mapped to partners. */
module Schedule {
  import opened Wrappers

  /** A mintable collection; only the fields the page logic passes around. */
  datatype Drop = Drop(name: string, address: string, price: string, startDate: int, endDate: int)

  /** A brand partner with its featured drop and the rest of its collection. */
  datatype Partner = Partner(slug: string, name: string, drop: Drop, otherDrops: seq<Drop>)

  /** One own property of the schedule object; `None` is a key whose value is `undefined`. */
  datatype Entry = Entry(key: string, partner: Option<Partner>)

  /** The schedule object's properties in `Object.keys` order. Date keys are not
      integer-like, so that order is insertion order. */
  type ScheduleTable = seq<Entry>

  /** Property names of a JavaScript object are unique. */
  ghost predicate UniqueKeys(s: ScheduleTable) {
    forall i, j :: 0 <= i < j < |s| ==> s[i].key != s[j].key
  }

  /** `Object.keys(schedule)`. */
  function Keys(s: ScheduleTable): (ks: seq<string>)
    ensures |ks| == |s|
    ensures forall i :: 0 <= i < |s| ==> ks[i] == s[i].key
  {
    seq(|s|, i requires 0 <= i < |s| => s[i].key)
  }

  /** The first `n + 1` keys are the first `n` keys and the key at `n`. */
  lemma KeysPrefix(s: ScheduleTable, n: nat)
    requires n < |s|
    ensures Keys(s)[..n + 1] == Keys(s)[..n] + [s[n].key]
  {
  }

  /** `schedule[key]`: the value under `key`, or `undefined` when the key is
      absent or its value is `undefined`. */
  function Lookup(s: ScheduleTable, key: string): (r: Option<Partner>)
    ensures r.Some? ==> exists i :: 0 <= i < |s| && s[i].key == key && s[i].partner == r
    ensures (forall i :: 0 <= i < |s| ==> s[i].key != key) ==> r == None
  {
    if s == [] then None
    else if s[0].key == key then s[0].partner
    else Lookup(s[1..], key)
  }

  /** In an object with unique property names, looking up the i-th key yields
      the i-th value. */
  lemma {:induction false} LookupKey(s: ScheduleTable, i: nat)
    requires UniqueKeys(s)
    requires i < |s|
    ensures Lookup(s, s[i].key) == s[i].partner
  {
    if i > 0 {
      assert s[0].key != s[i].key;
      assert UniqueKeys(s[1..]) by {
        forall a, b | 0 <= a < b < |s[1..]| ensures s[1..][a].key != s[1..][b].key {
          assert s[1..][a] == s[a + 1] && s[1..][b] == s[b + 1];
        }
      }
      LookupKey(s[1..], i - 1);
    }
  }
}
