/** Which build a caller receives and which features it may use there: plain functions over plain data. */
module VersionResolution {
  import opened Common

  type Feature = string

  const ALL_FEATURES: Feature := "*"

  datatype Channel = Stable | Beta | Internal

  datatype Source = Pin | Override | Canary | ChannelDefault | GlobalDefault | Nowhere

  /** Everything that can influence the version; an absent or blank version is the empty string. */
  datatype Request = Request(
    pinned: string, override: string, canary: string, channelDefault: string, globalDefault: string)

  // ---- Sorting, as strings compare -----------------------------------------

  /** Lexicographic order by character code. */
  predicate Leq(a: string, b: string) {
    a == "" || (b != "" && (a[0] < b[0] || (a[0] == b[0] && Leq(a[1..], b[1..]))))
  }

  lemma {:induction false} LeqTotal(a: string, b: string)
    ensures Leq(a, b) || Leq(b, a)
    ensures Leq(a, b) && Leq(b, a) ==> a == b
  {
    if a != "" && b != "" && a[0] == b[0] {
      LeqTotal(a[1..], b[1..]);
      assert a == [a[0]] + a[1..] && b == [b[0]] + b[1..];
    }
  }

  lemma {:induction false} LeqTransitive(a: string, b: string, c: string)
    requires Leq(a, b) && Leq(b, c)
    ensures Leq(a, c)
  {
    if a != "" && a[0] == b[0] && b[0] == c[0] {
      LeqTransitive(a[1..], b[1..], c[1..]);
    }
  }

  function Insert(x: string, list: seq<string>): (out: seq<string>)
    ensures multiset(out) == multiset(list) + multiset{x}
    decreases |list|
  {
    if list == [] then [x]
    else if Leq(x, list[0]) then
      assert [x] + list == [x] + [list[0]] + list[1..];
      [x] + list
    else
      assert list == [list[0]] + list[1..];
      [list[0]] + Insert(x, list[1..])
  }

  /** `[...list].sort()`. */
  function Sort(list: seq<string>): (out: seq<string>)
    ensures multiset(out) == multiset(list)
  {
    if list == [] then []
    else
      assert list == [list[0]] + list[1..];
      Insert(list[0], Sort(list[1..]))
  }

  ghost predicate Sorted(list: seq<string>) {
    forall i, j | 0 <= i < j < |list| :: Leq(list[i], list[j])
  }

  lemma {:induction false} InsertSorts(x: string, list: seq<string>)
    requires Sorted(list)
    ensures Sorted(Insert(x, list))
    decreases |list|
  {
    if list != [] {
      LeqTotal(x, list[0]);
      if Leq(x, list[0]) {
        forall j | 0 <= j < |list| ensures Leq(x, list[j]) {
          if j > 0 {
            LeqTransitive(x, list[0], list[j]);
          }
        }
      } else {
        InsertSorts(x, list[1..]);
        var tail := Insert(x, list[1..]);
        forall y | y in tail ensures Leq(list[0], y) {
          assert y in multiset(tail);
          assert y == x || y in list[1..];
        }
      }
    }
  }

  lemma {:induction false} SortSorts(list: seq<string>)
    ensures Sorted(Sort(list))
  {
    if list != [] {
      SortSorts(list[1..]);
      InsertSorts(list[0], Sort(list[1..]));
    }
  }

  lemma HeadIsLeast(list: seq<string>, x: string)
    requires Sorted(list) && x in list
    ensures Leq(list[0], x)
  {
    hide Leq;
    LeqTotal(x, x);
  }

  lemma TailMultiset(list: seq<string>)
    requires list != []
    ensures multiset(list[1..]) == multiset(list) - multiset{list[0]}
  {
    assert list == [list[0]] + list[1..];
  }

  lemma SameHead(a: seq<string>, b: seq<string>)
    requires Sorted(a) && Sorted(b) && multiset(a) == multiset(b) && a != [] && b != []
    ensures a[0] == b[0]
  {
    hide Leq, Sorted;
    assert a[0] in multiset(b) && b[0] in multiset(a);
    HeadIsLeast(a, b[0]);
    HeadIsLeast(b, a[0]);
    LeqTotal(a[0], b[0]);
  }

  /** A sorted list is determined by its elements. */
  lemma {:induction false} SortedUnique(a: seq<string>, b: seq<string>)
    requires Sorted(a) && Sorted(b) && multiset(a) == multiset(b)
    ensures a == b
    decreases |a|
  {
    assert |a| == |multiset(a)| == |multiset(b)| == |b|;
    if a != [] {
      SameHead(a, b);
      TailMultiset(a);
      TailMultiset(b);
      assert Sorted(a[1..]) && Sorted(b[1..]);
      hide Leq, Sorted;
      SortedUnique(a[1..], b[1..]);
      assert a == [a[0]] + a[1..] && b == [b[0]] + b[1..];
    }
  }

  // ---- Resolution ----------------------------------------------------------

  /** First match wins: pin, override, canary, channel default, global default. */
  function ResolveVersion(r: Request): (string, Source) {
    if r.pinned != "" then (r.pinned, Pin)
    else if r.override != "" then (r.override, Override)
    else if r.canary != "" then (r.canary, Canary)
    else if r.channelDefault != "" then (r.channelDefault, ChannelDefault)
    else if r.globalDefault != "" then (r.globalDefault, GlobalDefault)
    else ("", Nowhere)
  }

  function Keep(list: seq<Feature>, keep: Feature -> bool): (out: seq<Feature>)
    ensures forall f :: f in out <==> f in list && keep(f)
    decreases |list|
  {
    if list == [] then []
    else (if keep(list[0]) then [list[0]] else []) + Keep(list[1..], keep)
  }

  function ResolveFeatures(package: seq<Feature>, supported: seq<Feature>): seq<Feature> {
    if ALL_FEATURES in package then Sort(supported) else Sort(Keep(package, f => f in supported))
  }

  function MissingFromBuild(package: seq<Feature>, supported: seq<Feature>): seq<Feature> {
    if ALL_FEATURES in package then [] else Sort(Keep(package, f => f !in supported))
  }

  function Rank(c: Channel): nat {
    match c
    case Stable => 0
    case Beta => 1
    case Internal => 2
  }

  predicate ChannelAllows(caller: Channel, build: Channel) {
    Rank(build) <= Rank(caller)
  }

  // ---- What resolution promises --------------------------------------------

  lemma {:induction false} KeepSplits(list: seq<Feature>, keep: Feature -> bool)
    ensures multiset(Keep(list, keep)) + multiset(Keep(list, f => !keep(f))) == multiset(list)
    decreases |list|
  {
    if list != [] {
      KeepSplits(list[1..], keep);
      assert multiset(list) == multiset{list[0]} + multiset(list[1..]) by {
        assert list == [list[0]] + list[1..];
      }
      KeepHead(list, keep);
      KeepHead(list, f => !keep(f));
      hide Keep;
    }
  }

  lemma KeepHead(list: seq<Feature>, keep: Feature -> bool)
    requires list != []
    ensures multiset(Keep(list, keep)) == multiset(Keep(list[1..], keep)) + if keep(list[0]) then multiset{list[0]}
            else multiset{}
  {
  }

  lemma {:induction false} KeepAgrees(list: seq<Feature>, a: Feature -> bool, b: Feature -> bool)
    requires forall f | f in list :: a(f) == b(f)
    ensures Keep(list, a) == Keep(list, b)
    decreases |list|
  {
    if list != [] {
      KeepAgrees(list[1..], a, b);
    }
  }

  lemma SortMembers(list: seq<Feature>)
    ensures forall f :: f in Sort(list) <==> f in list
  {
    assert forall f :: f in Sort(list) <==> f in multiset(Sort(list));
    assert forall f :: f in list <==> f in multiset(list);
  }

  /**
   Granted and missing features split the package as a multiset, both in order, and everything granted
   is supported by the served build while nothing missing is.
   */
  lemma FeaturesPartition(package: seq<Feature>, supported: seq<Feature>)
    requires ALL_FEATURES !in package
    ensures var granted, missing := ResolveFeatures(package, supported), MissingFromBuild(package, supported);
            && multiset(granted) + multiset(missing) == multiset(package)
            && Sorted(granted) && Sorted(missing)
            && (forall f | f in granted :: f in supported)
            && (forall f | f in missing :: f !in supported)
  {
    var has := f => f in supported;
    KeepSplits(package, has);
    KeepAgrees(package, f => !has(f), f => f !in supported);
    SortSorts(Keep(package, has));
    SortSorts(Keep(package, f => f !in supported));
    SortMembers(Keep(package, has));
    SortMembers(Keep(package, f => f !in supported));
  }

  /** How often a feature is granted: as often as it is listed when the build has it, else never. */
  lemma GrantedCount(package: seq<Feature>, supported: seq<Feature>, f: Feature)
    requires ALL_FEATURES !in package
    ensures multiset(ResolveFeatures(package, supported))[f] == if f in supported then multiset(package)[f] else 0
  {
    FeaturesPartition(package, supported);
    hide ResolveFeatures, MissingFromBuild, Sorted;
    var granted, missing := ResolveFeatures(package, supported), MissingFromBuild(package, supported);
    assert multiset(package)[f] == multiset(granted)[f] + multiset(missing)[f];
    if f in supported {
      assert f !in multiset(missing);
    } else {
      assert f !in multiset(granted);
    }
  }

  /** The grant depends on which features are listed, not on their order or on the build's listing. */
  lemma GrantIgnoresOrder(p: seq<Feature>, q: seq<Feature>, s: seq<Feature>, t: seq<Feature>)
    requires ALL_FEATURES !in p && multiset(p) == multiset(q)
    requires forall f :: f in s <==> f in t
    ensures ResolveFeatures(p, s) == ResolveFeatures(q, t)
  {
    assert ALL_FEATURES !in multiset(q);
    hide ResolveFeatures, MissingFromBuild, Sorted, Sort, Keep, Leq;
    var a, b := ResolveFeatures(p, s), ResolveFeatures(q, t);
    forall f ensures multiset(a)[f] == multiset(b)[f] {
      GrantedCount(p, s, f);
      GrantedCount(q, t, f);
    }
    assert Sorted(a) && Sorted(b) by {
      FeaturesPartition(p, s);
      FeaturesPartition(q, t);
    }
    SortedUnique(a, b);
  }

  /** A package is granted whole exactly when the served build supports all of it. */
  lemma GrantedWholeExactly(package: seq<Feature>, supported: seq<Feature>)
    requires ALL_FEATURES !in package
    ensures multiset(ResolveFeatures(package, supported)) == multiset(package)
            <==> forall f | f in package :: f in supported
    ensures MissingFromBuild(package, supported) == [] <==> forall f | f in package :: f in supported
  {
    FeaturesPartition(package, supported);
    hide ResolveFeatures, MissingFromBuild, Sorted;
    var granted, missing := ResolveFeatures(package, supported), MissingFromBuild(package, supported);
    if forall f | f in package :: f in supported {
      PartsAreListed(package, granted, missing);
      SomeMember(missing);
    } else {
      var f :| f in package && f !in supported;
      GrantedCount(package, supported, f);
      assert multiset(package)[f] > 0;
    }
  }

  lemma SomeMember(list: seq<Feature>)
    ensures list == [] || exists f :: f in list
  {
    assert list != [] ==> list[0] in list;
  }

  lemma PartsAreListed(package: seq<Feature>, granted: seq<Feature>, missing: seq<Feature>)
    requires multiset(granted) + multiset(missing) == multiset(package)
    ensures forall f | f in missing :: f in package
  {
    assert forall f | f in missing :: f in multiset(missing) && f in multiset(package);
  }

  /** The wildcard package is granted exactly what the build lists, and misses nothing. */
  lemma WildcardGrantsBuild(package: seq<Feature>, supported: seq<Feature>)
    requires ALL_FEATURES in package
    ensures multiset(ResolveFeatures(package, supported)) == multiset(supported)
            && Sorted(ResolveFeatures(package, supported))
    ensures MissingFromBuild(package, supported) == []
  {
    SortSorts(supported);
  }

  /** The version is the first one named, in this order, with the place it was named in. */
  lemma FirstNamedVersionWins(r: Request)
    ensures var names := [r.pinned, r.override, r.canary, r.channelDefault, r.globalDefault];
            var places := [Pin, Override, Canary, ChannelDefault, GlobalDefault];
            && (forall i | 0 <= i < 5 && names[i] != "" && (forall j | 0 <= j < i :: names[j] == "") ::
                  ResolveVersion(r) == (names[i], places[i]))
            && ((forall i | 0 <= i < 5 :: names[i] == "") ==> ResolveVersion(r) == ("", Nowhere))
  {
    var names := [r.pinned, r.override, r.canary, r.channelDefault, r.globalDefault];
    assert names[0] == r.pinned && names[1] == r.override && names[2] == r.canary && names[3] == r.channelDefault
           && names[4] == r.globalDefault;
  }

  /** Everyone may run stable builds, internal callers any build, and beta callers beta builds too. */
  lemma ChannelsAllowExactly(caller: Channel, build: Channel)
    ensures ChannelAllows(caller, build) <==> build == Stable || caller == Internal || (caller == Beta && build == Beta)
  {
  }

  /** A pin outranks everything and an override everything but a pin, whatever the canary and defaults say. */
  lemma ChoiceOutranksDefaults(r: Request, s: Request)
    requires r.pinned == s.pinned && r.override == s.override && (r.pinned != "" || r.override != "")
    ensures ResolveVersion(r) == ResolveVersion(s)
    ensures ResolveVersion(r).1 in {Pin, Override} && ResolveVersion(r).0 != ""
  {
  }
}
