/**
 * The "has this changed" filter of packages/db/src/archive-export.ts
 * (`createChangeFilter`): configuration polls in, configuration changes out.
 */
module ChangeFilter {
  import opened Wrappers

  datatype Series = Series(device: string, metric: string)

  datatype Poll = Poll(series: Series, time: int, value: real)

  /** The key the filter remembers a series under. */
  function SeriesKey(s: Series): string { s.device + " " + s.metric }

  class Filter {
    var last: map<string, real>

    constructor ()
      ensures last == map[]
    {
      last := map[];
    }

    method Changed(series: string, value: real) returns (changed: bool)
      modifies this
      ensures last == old(last)[series := value]
      ensures changed <==> !(series in old(last) && old(last)[series] == value)
    {
      if series in last && last[series] == value { return false; }
      last := last[series := value];
      changed := true;
    }
  }

  /** The value most recently seen under `key`. */
  function LastUnder(polls: seq<Poll>, key: string): Option<real> {
    if polls == [] then None
    else
      var p := polls[|polls| - 1];
      if SeriesKey(p.series) == key then Some(p.value) else LastUnder(polls[..|polls| - 1], key)
  }

  /** The polls the filter lets through. */
  function Logged(polls: seq<Poll>): seq<Poll> {
    if polls == [] then []
    else
      var p, before := polls[|polls| - 1], polls[..|polls| - 1];
      if LastUnder(before, SeriesKey(p.series)) == Some(p.value) then Logged(before) else Logged(before) + [p]
  }

  /** What a filter fed `polls` remembers. */
  ghost predicate Remembers(last: map<string, real>, polls: seq<Poll>) {
    forall key :: LastUnder(polls, key) == if key in last then Some(last[key]) else None
  }

  // ----- the step function -------------------------------------------------

  /** The value a series has at instant `t`, as the polls tell it. */
  function ValueAt(polls: seq<Poll>, s: Series, t: int): Option<real> {
    if polls == [] then None
    else
      var p := polls[|polls| - 1];
      if p.series == s && p.time <= t then Some(p.value) else ValueAt(polls[..|polls| - 1], s, t)
  }

  /** Each series on its own is in time order. */
  predicate InOrder(polls: seq<Poll>) {
    forall i, j :: 0 <= i < j < |polls| && polls[i].series == polls[j].series ==> polls[i].time <= polls[j].time
  }

  predicate Over(polls: seq<Poll>, all: set<Series>) {
    forall i :: 0 <= i < |polls| ==> polls[i].series in all
  }

  predicate KeysInjective(all: set<Series>) {
    forall a, b :: a in all && b in all && SeriesKey(a) == SeriesKey(b) ==> a == b
  }

  lemma {:induction false} LatestIsLast(polls: seq<Poll>, all: set<Series>, s: Series, t: int)
    requires Over(polls, all) && KeysInjective(all) && s in all
    requires forall i :: 0 <= i < |polls| && polls[i].series == s ==> polls[i].time <= t
    ensures ValueAt(polls, s, t) == LastUnder(polls, SeriesKey(s))
  {
    if polls != [] { LatestIsLast(polls[..|polls| - 1], all, s, t); }
  }

  /** Collapsing keeps the step function: at every instant each series has the value it was polled with. */
  lemma {:induction false} StepsPreserved(polls: seq<Poll>, all: set<Series>, s: Series, t: int)
    requires Over(polls, all) && KeysInjective(all) && InOrder(polls)
    ensures ValueAt(Logged(polls), s, t) == ValueAt(polls, s, t)
  {
    if polls != [] {
      var p, before := polls[|polls| - 1], polls[..|polls| - 1];
      StepsPreserved(before, all, s, t);
      if LastUnder(before, SeriesKey(p.series)) != Some(p.value) {
        assert Logged(polls)[..|Logged(before)|] == Logged(before);
      } else if p.series == s && p.time <= t {
        LatestIsLast(before, all, s, t);
      }
    }
  }

  lemma {:induction false} LoggedRemembersTheSame(polls: seq<Poll>, key: string)
    ensures LastUnder(Logged(polls), key) == LastUnder(polls, key)
  {
    if polls != [] {
      var p, before := polls[|polls| - 1], polls[..|polls| - 1];
      LoggedRemembersTheSame(before, key);
      if LastUnder(before, SeriesKey(p.series)) != Some(p.value) {
        assert Logged(polls)[..|Logged(before)|] == Logged(before);
      }
    }
  }

  /** No logged value repeats what its series logged before it, and collapsing a log changes nothing. */
  lemma {:induction false} LogIsCollapsed(polls: seq<Poll>)
    ensures forall i :: 0 <= i < |Logged(polls)| ==>
              LastUnder(Logged(polls)[..i], SeriesKey(Logged(polls)[i].series)) != Some(Logged(polls)[i].value)
    ensures Logged(Logged(polls)) == Logged(polls)
  {
    if polls != [] {
      var p, before := polls[|polls| - 1], polls[..|polls| - 1];
      var log := Logged(before);
      LogIsCollapsed(before);
      LoggedRemembersTheSame(before, SeriesKey(p.series));
      if LastUnder(before, SeriesKey(p.series)) != Some(p.value) {
        assert (log + [p])[..|log|] == log;
        forall i | 0 <= i < |log + [p]|
          ensures LastUnder((log + [p])[..i], SeriesKey((log + [p])[i].series)) != Some((log + [p])[i].value)
        {
          if i < |log| { assert (log + [p])[..i] == log[..i]; }
        }
      }
    }
  }

  // ----- when the key is good enough ---------------------------------------

  /** Every stream over these series, in order per series, keeps its step function. */
  ghost predicate AlwaysPreserved(all: set<Series>) {
    forall polls, s, t :: Over(polls, all) && InOrder(polls) ==> ValueAt(Logged(polls), s, t) == ValueAt(polls, s, t)
  }

  /** Two series sharing a key: the second one's first poll is mistaken for a repeat. */
  lemma CollisionLosesAPoll(a: Series, b: Series)
    requires a != b && SeriesKey(a) == SeriesKey(b)
    ensures var polls := [Poll(a, 0, 1.0), Poll(b, 0, 1.0)];
            InOrder(polls) && ValueAt(polls, b, 0) == Some(1.0) && ValueAt(Logged(polls), b, 0) == None
  {
    var first, second := Poll(a, 0, 1.0), Poll(b, 0, 1.0);
    var polls := [first, second];
    assert polls[..1] == [first] && [first][..0] == [];
    assert LastUnder([first], SeriesKey(b)) == Some(1.0);
    assert Logged([first]) == [first];
    assert Logged(polls) == [first];
    assert ValueAt([], b, 0) == None;
  }

  /** Collapsing is faithful for a set of series if and only if no two of them share a key. */
  lemma FaithfulIffKeysInjective(all: set<Series>)
    ensures AlwaysPreserved(all) <==> KeysInjective(all)
  {
    if KeysInjective(all) {
      forall polls, s, t | Over(polls, all) && InOrder(polls)
        ensures ValueAt(Logged(polls), s, t) == ValueAt(polls, s, t)
      {
        StepsPreserved(polls, all, s, t);
      }
    } else {
      var a, b :| a in all && b in all && SeriesKey(a) == SeriesKey(b) && a != b;
      CollisionLosesAPoll(a, b);
      var polls := [Poll(a, 0, 1.0), Poll(b, 0, 1.0)];
      assert Over(polls, all);
    }
  }

  /** The text in front of the first space. */
  function FirstWord(text: string): string {
    if text == "" || text[0] == ' ' then "" else [text[0]] + FirstWord(text[1..])
  }

  lemma {:induction false} FirstWordOf(word: string, rest: string)
    requires ' ' !in word
    ensures FirstWord(word + " " + rest) == word
  {
    if word != "" {
      assert (word + " " + rest)[1..] == word[1..] + " " + rest;
      FirstWordOf(word[1..], rest);
    }
  }

  lemma DeviceIsPrefix(s: Series)
    requires ' ' !in s.device
    ensures FirstWord(SeriesKey(s)) == s.device
  {
    FirstWordOf(s.device, s.metric);
  }

  /** Device slugs without spaces are enough. */
  lemma SpaceFreeDevicesSuffice(all: set<Series>)
    requires forall s :: s in all ==> ' ' !in s.device
    ensures KeysInjective(all)
  {
    forall a, b | a in all && b in all && SeriesKey(a) == SeriesKey(b)
      ensures a == b
    {
      DeviceIsPrefix(a);
      DeviceIsPrefix(b);
      assert a.metric == SeriesKey(a)[|a.device| + 1..] && b.metric == SeriesKey(b)[|b.device| + 1..];
    }
  }
}
