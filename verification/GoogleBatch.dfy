/** Splitting a change into batches (pkg/dns/google/google.go:331-401). */
module GoogleBatch {
  import opened Options
  import opened Sorting
  import opened GoogleZone

  function Named(rs: seq<RecordSet>, name: string): seq<RecordSet> {
    if rs == [] then [] else Named(rs[..|rs| - 1], name) + if rs[|rs| - 1].name == name then [rs[|rs| - 1]] else []
  }

  /** Everything a change does to one name. */
  function GroupOf(c: Change, name: string): Change {
    Change(Named(c.additions, name), Named(c.deletions, name))
  }

  function Size(c: Change): nat {
    |c.additions| + |c.deletions|
  }

  function Merge(c: Change, names: seq<string>): Change {
    if names == [] then NO_CHANGE else Join(Merge(c, names[..|names| - 1]), GroupOf(c, names[|names| - 1]))
  }

  function Merger(c: Change): seq<string> -> Change {
    (names: seq<string>) => Merge(c, names)
  }

  function Load(c: Change, names: seq<string>): nat {
    Size(Merge(c, names))
  }

  predicate Fits(c: Change, name: string, limit: int) {
    Size(GroupOf(c, name)) <= limit
  }

  /** Greedy packing: a name joins the last batch if its whole group still fits there, otherwise it
      opens a new one; a name whose group fits nowhere is left out. */
  function Pack(c: Change, names: seq<string>, limit: int): seq<seq<string>> {
    if names == [] then []
    else
      var before, name := Pack(c, names[..|names| - 1], limit), names[|names| - 1];
      if !Fits(c, name, limit) then before
      else if before == [] || Load(c, before[|before| - 1]) + Size(GroupOf(c, name)) > limit then before + [[name]]
      else before[..|before| - 1] + [before[|before| - 1] + [name]]
  }

  function Dedupe(s: seq<string>): seq<string> {
    if s == [] then []
    else Dedupe(s[..|s| - 1]) + if s[|s| - 1] in s[..|s| - 1] then [] else [s[|s| - 1]]
  }

  function NamesIn(rs: seq<RecordSet>): seq<string> {
    if rs == [] then [] else NamesIn(rs[..|rs| - 1]) + [rs[|rs| - 1].name]
  }

  function Self(s: string): string {
    s
  }

  /** The names a change mentions, each once, in order. */
  function SortedNames(c: Change): seq<string> {
    SortBy(Dedupe(NamesIn(c.additions) + NamesIn(c.deletions)), Self)
  }

  function Batches(c: Change, limit: int): seq<Change> {
    Map(Merger(c), Pack(c, SortedNames(c), limit))
  }

  // ----- names -----

  ghost predicate Mentions(c: Change, name: string) {
    Size(GroupOf(c, name)) > 0
  }

  lemma {:induction false} DedupeFacts(s: seq<string>)
    ensures forall x :: x in Dedupe(s) <==> x in s
    ensures DistinctKeys(Dedupe(s), Self)
  {
    if s != [] {
      var n := |s| - 1;
      DedupeFacts(s[..n]);
      assert s == s[..n] + [s[n]];
      var d := Dedupe(s[..n]);
      forall i | 0 <= i < |d| && s[n] !in s[..n] ensures d[i] != s[n] {
        assert d[i] in d;
      }
    }
  }

  lemma {:induction false} NamesInFacts(rs: seq<RecordSet>, name: string)
    ensures name in NamesIn(rs) <==> Named(rs, name) != []
  {
    if rs != [] {
      NamesInFacts(rs[..|rs| - 1], name);
    }
  }

  lemma Mentioned(c: Change, name: string)
    ensures name in NamesIn(c.additions) + NamesIn(c.deletions) <==> Mentions(c, name)
  {
    NamesInFacts(c.additions, name);
    NamesInFacts(c.deletions, name);
  }

  /** Exactly the names the change mentions, without repetition and in order. */
  lemma SortedNamesFacts(c: Change)
    ensures forall n :: n in SortedNames(c) <==> Mentions(c, n)
    ensures DistinctKeys(SortedNames(c), Self) && SortedBy(SortedNames(c), Self)
  {
    hide Mentions, NamesIn, Dedupe, SortBy, SortedBy, DistinctKeys;
    var all := NamesIn(c.additions) + NamesIn(c.deletions);
    var d := Dedupe(all);
    DedupeFacts(all);
    SortBySorted(d, Self);
    DistinctKeysPermute(d, SortedNames(c), Self);
    forall n ensures n in SortedNames(c) <==> Mentions(c, n) {
      assert n in SortedNames(c) <==> n in multiset(SortedNames(c));
      assert n in d <==> n in multiset(d);
      Mentioned(c, n);
    }
  }

  // ----- packing -----

  function Fitting(c: Change, names: seq<string>, limit: int): seq<string> {
    if names == [] then []
    else Fitting(c, names[..|names| - 1], limit) + if Fits(c, names[|names| - 1], limit) then [names[|names| - 1]] else
        []
  }

  function Flatten(parts: seq<seq<string>>): seq<string> {
    if parts == [] then [] else Flatten(parts[..|parts| - 1]) + parts[|parts| - 1]
  }

  lemma FlattenLast(parts: seq<seq<string>>, p: seq<string>)
    ensures Flatten(parts + [p]) == Flatten(parts) + p
  {
    assert (parts + [p])[..|parts|] == parts;
  }

  lemma MergeLast(c: Change, names: seq<string>, name: string)
    ensures Merge(c, names + [name]) == Join(Merge(c, names), GroupOf(c, name))
    ensures Load(c, names + [name]) == Load(c, names) + Size(GroupOf(c, name))
  {
    assert (names + [name])[..|names|] == names;
  }

  /** Packing keeps every name whose group fits, once and in order, and nothing else. */
  lemma {:induction false} PackConserves(c: Change, names: seq<string>, limit: int)
    ensures Flatten(Pack(c, names, limit)) == Fitting(c, names, limit)
  {
    if names != [] {
      hide Flatten, Load;
      var n := |names| - 1;
      var before, name := Pack(c, names[..n], limit), names[n];
      PackConserves(c, names[..n], limit);
      if Fits(c, name, limit) {
        if before == [] || Load(c, before[|before| - 1]) + Size(GroupOf(c, name)) > limit {
          FlattenLast(before, [name]);
        } else {
          var m := |before| - 1;
          assert before == before[..m] + [before[m]];
          FlattenLast(before[..m], before[m]);
          FlattenLast(before[..m], before[m] + [name]);
        }
      }
    } else {
      assert Flatten([]) == [];
    }
  }

  ghost predicate WellPacked(c: Change, parts: seq<seq<string>>, limit: int) {
    && (forall i | 0 <= i < |parts| :: 0 < Load(c, parts[i]) <= limit)
    && (forall i | 0 <= i < |parts| - 1 :: Load(c, parts[i]) + Load(c, parts[i + 1]) > limit)
  }

  lemma WellPackedNew(c: Change, parts: seq<seq<string>>, p: seq<string>, limit: int)
    requires WellPacked(c, parts, limit) && 0 < Load(c, p) <= limit
    requires parts != [] ==> Load(c, parts[|parts| - 1]) + Load(c, p) > limit
    ensures WellPacked(c, parts + [p], limit)
  {
    hide Load;
  }

  lemma WellPackedGrow(c: Change, parts: seq<seq<string>>, p: seq<string>, limit: int)
    requires WellPacked(c, parts, limit) && parts != [] && Load(c, parts[|parts| - 1]) <= Load(c, p) <= limit
    ensures WellPacked(c, parts[..|parts| - 1] + [p], limit)
  {
    hide Load;
    var m := |parts| - 1;
    var grown := parts[..m] + [p];
    assert forall i | 0 <= i < m :: grown[i] == parts[i];
    forall i | 0 <= i < |grown| - 1 ensures Load(c, grown[i]) + Load(c, grown[i + 1]) > limit {
      assert Load(c, parts[i]) + Load(c, parts[i + 1]) > limit;
    }
  }

  lemma LoadOne(c: Change, name: string)
    ensures Load(c, [name]) == Size(GroupOf(c, name))
  {
    MergeLast(c, [], name);
    assert [] + [name] == [name];
  }

  /** No batch is empty or too big, and any two consecutive ones would not fit into one. */
  lemma {:induction false} PackWell(c: Change, names: seq<string>, limit: int)
    requires forall i | 0 <= i < |names| :: Mentions(c, names[i])
    ensures WellPacked(c, Pack(c, names, limit), limit)
  {
    if names != [] {
      hide Load, WellPacked, GroupOf, Size;
      var n := |names| - 1;
      var before, name := Pack(c, names[..n], limit), names[n];
      PackWell(c, names[..n], limit);
      assert Mentions(c, name);
      LoadOne(c, name);
      if Fits(c, name, limit) {
        if before == [] || Load(c, before[|before| - 1]) + Size(GroupOf(c, name)) > limit {
          WellPackedNew(c, before, [name], limit);
        } else {
          var m := |before| - 1;
          MergeLast(c, before[m], name);
          WellPackedGrow(c, before, before[m] + [name], limit);
        }
      }
    }
  }

  function Total(c: Change, parts: seq<seq<string>>): nat {
    if parts == [] then 0 else Total(c, parts[..|parts| - 1]) + Load(c, parts[|parts| - 1])
  }

  /** Half as many batches, each with one change more than the limit, are already too many. */
  lemma {:induction false} FewBatches(c: Change, parts: seq<seq<string>>, limit: nat)
    requires WellPacked(c, parts, limit)
    ensures |parts| / 2 * (limit + 1) <= Total(c, parts)
  {
    hide Load;
    if |parts| >= 2 {
      var m := |parts| - 2;
      FewBatches(c, parts[..m], limit);
      assert parts[..m + 1][..m] == parts[..m];
      assert Total(c, parts) == Total(c, parts[..m]) + Load(c, parts[m]) + Load(c, parts[m + 1]);
      HalfStep(|parts|, limit + 1);
    }
  }

  lemma HalfStep(n: nat, d: nat)
    requires n >= 2
    ensures n / 2 * d == (n - 2) / 2 * d + d
  {
    assert n / 2 == (n - 2) / 2 + 1;
  }

  // ----- what each batch does -----

  lemma {:induction false} NamedConcat(a: seq<RecordSet>, b: seq<RecordSet>, name: string)
    ensures Named(a + b, name) == Named(a, name) + Named(b, name)
  {
    if b == [] {
      assert a + b == a;
    } else {
      var n := |b| - 1;
      NamedConcat(a, b[..n], name);
      assert (a + b)[..|a + b| - 1] == a + b[..n];
    }
  }

  lemma {:induction false} NamedNamed(rs: seq<RecordSet>, m: string, n: string)
    ensures Named(Named(rs, m), n) == if m == n then Named(rs, n) else []
  {
    if rs != [] {
      var last := rs[|rs| - 1];
      NamedNamed(rs[..|rs| - 1], m, n);
      if last.name == m {
        NamedConcat(Named(rs[..|rs| - 1], m), [last], n);
        NamedOne(last, n);
      } else {
        assert Named(rs, m) == Named(rs[..|rs| - 1], m);
        assert m == n ==> Named(rs, n) == Named(rs[..|rs| - 1], n);
      }
    }
  }

  lemma NamedOne(r: RecordSet, name: string)
    ensures Named([r], name) == if r.name == name then [r] else []
  {
    assert [r][..0] == [];
  }

  lemma GroupOfJoin(a: Change, b: Change, name: string)
    ensures GroupOf(Join(a, b), name) == Join(GroupOf(a, name), GroupOf(b, name))
  {
    NamedConcat(a.additions, b.additions, name);
    NamedConcat(a.deletions, b.deletions, name);
  }

  lemma GroupOfGroup(c: Change, m: string, n: string)
    ensures GroupOf(GroupOf(c, m), n) == if m == n then GroupOf(c, n) else NO_CHANGE
  {
    NamedNamed(c.additions, m, n);
    NamedNamed(c.deletions, m, n);
  }

  /** A merged batch does to each of its names exactly what the change does, and to others nothing. */
  lemma {:induction false} MergeGroup(c: Change, names: seq<string>, name: string)
    requires NoRepeats(names)
    ensures GroupOf(Merge(c, names), name) == if name in names then GroupOf(c, name) else NO_CHANGE
  {
    if names != [] {
      hide GroupOf, Join, NoRepeats;
      var n := |names| - 1;
      LastApart(names);
      MergeGroup(c, names[..n], name);
      GroupOfJoin(Merge(c, names[..n]), GroupOf(c, names[n]), name);
      GroupOfGroup(c, names[n], name);
      JoinNothing(GroupOf(c, name));
      JoinNothing(NO_CHANGE);
      assert name in names <==> name in names[..n] || name == names[n];
    } else {
      assert Named([], name) == [];
    }
  }

  lemma LastApart(names: seq<string>)
    requires NoRepeats(names) && names != []
    ensures NoRepeats(names[..|names| - 1]) && names[|names| - 1] !in names[..|names| - 1]
    ensures names == names[..|names| - 1] + [names[|names| - 1]]
  {}

  lemma JoinNothing(c: Change)
    ensures Join(c, NO_CHANGE) == c && Join(NO_CHANGE, c) == c
  {}

  lemma {:induction false} FlattenMembers(parts: seq<seq<string>>, name: string)
    ensures name in Flatten(parts) <==> exists i :: 0 <= i < |parts| && name in parts[i]
  {
    if parts != [] {
      var n := |parts| - 1;
      FlattenMembers(parts[..n], name);
      if i :| 0 <= i < |parts| && name in parts[i] && i != n {
        assert parts[..n][i] == parts[i];
      }
    }
  }

  lemma ConcatApart(a: seq<string>, b: seq<string>)
    requires NoRepeats(a + b)
    ensures NoRepeats(a) && NoRepeats(b)
    ensures forall x | x in a :: x !in b
  {
    assert forall k | 0 <= k < |a| :: a[k] == (a + b)[k];
    assert forall k | 0 <= k < |b| :: b[k] == (a + b)[|a| + k];
  }

  lemma {:induction false} FlattenApart(parts: seq<seq<string>>, i: nat, j: nat, name: string)
    requires NoRepeats(Flatten(parts)) && i < |parts| && j < |parts| && name in parts[i] && name in parts[j]
    ensures i == j && NoRepeats(parts[i])
  {
    hide NoRepeats;
    var n := |parts| - 1;
    ConcatApart(Flatten(parts[..n]), parts[n]);
    FlattenMembers(parts[..n], name);
    if i < n && j < n {
      FlattenApart(parts[..n], i, j, name);
    }
  }

  lemma {:induction false} FittingFacts(c: Change, names: seq<string>, limit: int)
    requires NoRepeats(names)
    ensures NoRepeats(Fitting(c, names, limit))
    ensures forall n :: n in Fitting(c, names, limit) <==> n in names && Fits(c, n, limit)
  {
    if names != [] {
      var n := |names| - 1;
      FittingFacts(c, names[..n], limit);
      assert names == names[..n] + [names[n]];
      assert names[n] !in names[..n];
      assert names[n] !in Fitting(c, names[..n], limit);
    }
  }

  lemma PartsFacts(c: Change, limit: int)
    ensures var parts := Pack(c, SortedNames(c), limit);
            && NoRepeats(Flatten(parts))
            && forall n :: n in Flatten(parts) <==> Mentions(c, n) && Fits(c, n, limit)
  {
    hide Pack, Flatten, Fitting, Mentions, Fits, SortedNames;
    SortedNamesFacts(c);
    assert NoRepeats(SortedNames(c));
    FittingFacts(c, SortedNames(c), limit);
    PackConserves(c, SortedNames(c), limit);
  }

  /** Batch i does to the name what the change does, and no other batch touches it. */
  ghost predicate OnlyIn(bs: seq<Change>, i: int, c: Change, name: string) {
    && 0 <= i < |bs|
    && GroupOf(bs[i], name) == GroupOf(c, name)
    && forall j | 0 <= j < |bs| && j != i :: GroupOf(bs[j], name) == NO_CHANGE
  }

  /** Each name's additions and deletions share one batch, complete and in order, unless its group
      is bigger than the limit, in which case no batch has any of them. */
  lemma NameInOneBatch(c: Change, limit: int, name: string)
    requires Mentions(c, name)
    ensures var bs := Batches(c, limit);
            if Fits(c, name, limit)
            then exists i :: OnlyIn(bs, i, c, name)
            else forall j | 0 <= j < |bs| :: GroupOf(bs[j], name) == NO_CHANGE
  {
    hide Pack, Flatten, Mentions, Fits, SortedNames, GroupOf, Merge;
    var parts, bs := Pack(c, SortedNames(c), limit), Batches(c, limit);
    PartsFacts(c, limit);
    FlattenMembers(parts, name);
    forall j | 0 <= j < |parts| ensures GroupOf(bs[j], name) == if name in parts[j] then GroupOf(c, name) else
        NO_CHANGE {
      PartNoRepeats(parts, j);
      MergeGroup(c, parts[j], name);
    }
    if Fits(c, name, limit) {
      var i :| 0 <= i < |parts| && name in parts[i];
      forall j | 0 <= j < |parts| && j != i ensures name !in parts[j] {
        if name in parts[j] {
          FlattenApart(parts, i, j, name);
        }
      }
      assert OnlyIn(bs, i, c, name);
    }
  }

  lemma PartNoRepeats(parts: seq<seq<string>>, i: nat)
    requires NoRepeats(Flatten(parts)) && i < |parts|
    ensures NoRepeats(parts[i])
  {
    if parts[i] != [] {
      FlattenApart(parts, i, i, parts[i][0]);
    }
  }

  // ----- batching refines one atomic change -----

  lemma {:induction false} AtNamed(rs: seq<RecordSet>, k: RecordKey)
    ensures At(rs, k) == At(Named(rs, k.name), k)
  {
    if rs != [] {
      var front, last := rs[..|rs| - 1], rs[|rs| - 1];
      AtNamed(front, k);
      if last.name == k.name {
        AtConcat(Named(front, k.name), [last], k);
        assert [last][..0] == [];
      } else {
        assert Named(rs, k.name) == Named(front, k.name);
        assert At(rs, k) == At(front, k);
      }
    }
  }

  lemma SameGroupSameAt(c: Change, d: Change, k: RecordKey)
    requires GroupOf(c, k.name) == GroupOf(d, k.name)
    ensures SameAt(c, d, k)
  {
    AtNamed(c.additions, k);
    AtNamed(d.additions, k);
    AtNamed(c.deletions, k);
    AtNamed(d.deletions, k);
  }

  lemma NoGroupUntouched(c: Change, k: RecordKey)
    requires GroupOf(c, k.name) == NO_CHANGE
    ensures Untouched(c, k)
  {
    AtNamed(c.additions, k);
    AtNamed(c.deletions, k);
  }

  lemma {:induction false} MergeConcat(c: Change, a: seq<string>, b: seq<string>)
    ensures Merge(c, a + b) == Join(Merge(c, a), Merge(c, b))
  {
    if b == [] {
      assert a + b == a;
      JoinNothing(Merge(c, a));
    } else {
      var n := |b| - 1;
      assert a + b == a + b[..n] + [b[n]] && b == b[..n] + [b[n]];
      MergeConcat(c, a, b[..n]);
      MergeLast(c, a + b[..n], b[n]);
      MergeLast(c, b[..n], b[n]);
      JoinAssociative(Merge(c, a), Merge(c, b[..n]), GroupOf(c, b[n]));
    }
  }

  lemma JoinAssociative(a: Change, b: Change, c: Change)
    ensures Join(Join(a, b), c) == Join(a, Join(b, c))
  {}

  lemma MergesApart(c: Change, a: seq<string>, b: seq<string>, k: RecordKey)
    requires NoRepeats(a + b)
    ensures Untouched(Merge(c, a), k) || Untouched(Merge(c, b), k)
  {
    hide NoRepeats, Merge, Untouched;
    ConcatApart(a, b);
    MergeGroup(c, a, k.name);
    MergeGroup(c, b, k.name);
    if k.name in a {
      NoGroupUntouched(Merge(c, b), k);
    } else {
      NoGroupUntouched(Merge(c, a), k);
    }
  }

  lemma ApplyNothing(z: Zone)
    ensures Apply(z, NO_CHANGE) == Some(z)
  {
    forall k ensures AcceptableAt(z, NO_CHANGE, k) {}
    assert Applied(z, NO_CHANGE) == z;
  }

  /** Submitting the merged parts one by one has the effect of the one merged change. */
  lemma {:induction false} ApplyParts(z: Zone, c: Change, parts: seq<seq<string>>)
    requires NoRepeats(Flatten(parts))
    ensures ApplyAll(z, Map(Merger(c), parts)) == Apply(z, Merge(c, Flatten(parts)))
  {
    if parts == [] {
      ApplyNothing(z);
    } else {
      hide NoRepeats, Merge, Apply, Untouched, Map;
      var n := |parts| - 1;
      var front, cs := Flatten(parts[..n]), Map(Merger(c), parts);
      ConcatApart(front, parts[n]);
      ApplyParts(z, c, parts[..n]);
      assert cs[..n] == Map(Merger(c), parts[..n]);
      forall k ensures Untouched(Merge(c, front), k) || Untouched(Merge(c, parts[n]), k) {
        MergesApart(c, front, parts[n], k);
      }
      ApplyJoin(z, Merge(c, front), Merge(c, parts[n]));
      MergeConcat(c, front, parts[n]);
    }
  }

  ghost predicate EveryGroupFits(c: Change, limit: int) {
    forall n | Mentions(c, n) :: Fits(c, n, limit)
  }

  /** When every group fits, applying the batches in order is applying the one change: the same zone
      afterwards, and rejection of one exactly when the other is rejected. */
  lemma BatchesRefineChange(z: Zone, c: Change, limit: int)
    requires EveryGroupFits(c, limit)
    ensures ApplyAll(z, Batches(c, limit)) == Apply(z, c)
  {
    hide Pack, Flatten, Mentions, Fits, SortedNames, Merge, Apply, ApplyAll, NoRepeats, SameAt;
    var names := Flatten(Pack(c, SortedNames(c), limit));
    PartsFacts(c, limit);
    ApplyParts(z, c, Pack(c, SortedNames(c), limit));
    forall k ensures SameAt(Merge(c, names), c, k) {
      MergeGroup(c, names, k.name);
      NotMentioned(c, k.name);
      SameGroupSameAt(Merge(c, names), c, k);
    }
    ApplySame(z, Merge(c, names), c);
  }

  lemma NotMentioned(c: Change, name: string)
    ensures Mentions(c, name) || GroupOf(c, name) == NO_CHANGE
  {}

  // ----- how many batches -----

  /** The records whose name is listed. */
  function Listed(rs: seq<RecordSet>, names: seq<string>): seq<RecordSet> {
    if rs == [] then [] else Listed(rs[..|rs| - 1], names) + if rs[|rs| - 1].name in names then [rs[|rs| - 1]] else []
  }

  lemma {:induction false} ListedSplit(rs: seq<RecordSet>, names: seq<string>, name: string)
    requires name !in names
    ensures |Listed(rs, names + [name])| == |Listed(rs, names)| + |Named(rs, name)| <= |rs|
  {
    if rs != [] {
      ListedSplit(rs[..|rs| - 1], names, name);
    }
  }

  lemma {:induction false} MergeSize(c: Change, names: seq<string>)
    requires NoRepeats(names)
    ensures |Merge(c, names).additions| == |Listed(c.additions, names)|
    ensures |Merge(c, names).deletions| == |Listed(c.deletions, names)|
    ensures Load(c, names) <= Size(c)
  {
    if names == [] {
      ListedNone(c.additions);
      ListedNone(c.deletions);
    } else {
      var n := |names| - 1;
      LastApart(names);
      MergeSize(c, names[..n]);
      ListedSplit(c.additions, names[..n], names[n]);
      ListedSplit(c.deletions, names[..n], names[n]);
    }
  }

  lemma {:induction false} ListedNone(rs: seq<RecordSet>)
    ensures Listed(rs, []) == []
  {
    if rs != [] {
      ListedNone(rs[..|rs| - 1]);
    }
  }

  lemma {:induction false} TotalIsLoad(c: Change, parts: seq<seq<string>>)
    ensures Total(c, parts) == Load(c, Flatten(parts))
  {
    if parts != [] {
      hide Merge;
      TotalIsLoad(c, parts[..|parts| - 1]);
      MergeConcat(c, Flatten(parts[..|parts| - 1]), parts[|parts| - 1]);
    } else {
      assert Merge(c, []) == NO_CHANGE;
    }
  }

  /** No batch is empty or over the limit, two consecutive ones exceed it together, and so the number
      of batches is bounded by the size of the change. */
  lemma BatchesAreFew(c: Change, limit: nat)
    ensures var bs := Batches(c, limit);
            && (forall i | 0 <= i < |bs| :: 0 < Size(bs[i]) <= limit)
            && (forall i | 0 <= i < |bs| - 1 :: Size(bs[i]) + Size(bs[i + 1]) > limit)
            && |bs| / 2 * (limit + 1) <= Size(c)
  {
    hide Pack, Flatten, SortedNames, Mentions, Fits, Merge, NoRepeats;
    var parts := Pack(c, SortedNames(c), limit);
    SortedNamesFacts(c);
    PackWell(c, SortedNames(c), limit);
    assert forall i | 0 <= i < |parts| :: Size(Batches(c, limit)[i]) == Load(c, parts[i]);
    FewBatches(c, parts, limit);
    PartsFacts(c, limit);
    TotalIsLoad(c, parts);
    MergeSize(c, Flatten(parts));
  }

  // ----- the loop -----

  lemma NamedStep(rs: seq<RecordSet>, i: nat, name: string)
    requires i < |rs|
    ensures Named(rs[..i + 1], name) == Named(rs[..i], name) + if rs[i].name == name then [rs[i]] else []
  {
    assert rs[..i + 1][..i] == rs[..i];
  }

  /** What the map holds for a name. */
  ghost predicate Holds(byName: map<string, Change>, name: string, adds: seq<RecordSet>, dels: seq<RecordSet>) {
    if adds == [] && dels == [] then name !in byName else name in byName && byName[name] == Change(adds, dels)
  }

  ghost predicate Grouped(byName: map<string, Change>, adds: seq<RecordSet>, dels: seq<RecordSet>, name: string) {
    Holds(byName, name, Named(adds, name), Named(dels, name))
  }

  lemma GroupedAdd(byName: map<string, Change>, rs: seq<RecordSet>, i: nat, name: string)
    requires i < |rs| && Grouped(byName, rs[..i], [], name) && Grouped(byName, rs[..i], [], rs[i].name)
    ensures var group := if rs[i].name in byName then byName[rs[i].name] else NO_CHANGE;
            Grouped(byName[rs[i].name := group.(additions := group.additions + [rs[i]])], rs[..i + 1], [], name)
  {
    NamedStep(rs, i, name);
    NamedStep(rs, i, rs[i].name);
  }

  lemma GroupedDelete(byName: map<string, Change>, adds: seq<RecordSet>, rs: seq<RecordSet>, i: nat, name: string)
    requires i < |rs| && Grouped(byName, adds, rs[..i], name) && Grouped(byName, adds, rs[..i], rs[i].name)
    ensures var group := if rs[i].name in byName then byName[rs[i].name] else NO_CHANGE;
            Grouped(byName[rs[i].name := group.(deletions := group.deletions + [rs[i]])], adds, rs[..i + 1], name)
  {
    NamedStep(rs, i, name);
    NamedStep(rs, i, rs[i].name);
  }

  /** The additions and deletions of each name, gathered in a map. */
  method GroupByName(c: Change) returns (byName: map<string, Change>)
    ensures forall n :: Grouped(byName, c.additions, c.deletions, n)
  {
    byName := map[];
    for i := 0 to |c.additions|
      invariant forall n :: Grouped(byName, c.additions[..i], [], n)
    {
      hide Grouped;
      var a := c.additions[i];
      var group := if a.name in byName then byName[a.name] else NO_CHANGE;
      var next := byName[a.name := group.(additions := group.additions + [a])];
      var done := c.additions[..i + 1];
      forall n ensures Grouped(next, done, [], n) {
        GroupedAdd(byName, c.additions, i, n);
      }
      byName := next;
    }
    assert c.additions[..|c.additions|] == c.additions && c.deletions[..0] == [];
    for i := 0 to |c.deletions|
      invariant forall n :: Grouped(byName, c.additions, c.deletions[..i], n)
    {
      hide Grouped;
      var d := c.deletions[i];
      var group := if d.name in byName then byName[d.name] else NO_CHANGE;
      var next := byName[d.name := group.(deletions := group.deletions + [d])];
      var done := c.deletions[..i + 1];
      forall n ensures Grouped(next, c.additions, done, n) {
        GroupedDelete(byName, c.additions, c.deletions, i, n);
      }
      byName := next;
    }
    assert c.deletions[..|c.deletions|] == c.deletions;
  }

  /** The keys of a map, in whatever order they come. */
  method ListKeys(keys: set<string>) returns (names: seq<string>)
    ensures NoRepeats(names) && forall n :: n in names <==> n in keys
  {
    names := [];
    var rest := keys;
    while rest != {}
      invariant rest <= keys && NoRepeats(names)
      invariant forall n :: n in names <==> n in keys && n !in rest
    {
      var n :| n in rest;
      names := names + [n];
      rest := rest - {n};
    }
  }

  /** Whatever order the map keys come in, sorting gives the same list of names. */
  lemma SortedKeys(c: Change, names: seq<string>)
    requires NoRepeats(names) && forall n :: n in names <==> Mentions(c, n)
    ensures SortBy(names, Self) == SortedNames(c)
  {
    hide Mentions, SortedNames, SortBy, SortedBy;
    SortedNamesFacts(c);
    SortBySorted(names, Self);
    SameNames(names, SortedNames(c));
    DistinctKeysPermute(names, SortBy(names, Self), Self);
    SortedUnique(SortBy(names, Self), SortedNames(c), Self);
  }

  lemma SameNames(a: seq<string>, b: seq<string>)
    requires NoRepeats(a) && DistinctKeys(b, Self) && forall n :: n in a <==> n in b
    ensures multiset(a) == multiset(b) && DistinctKeys(a, Self)
  {
    NoRepeatsPermute(a, b);
  }

  lemma GroupsHeld(c: Change, byName: map<string, Change>, name: string)
    requires Grouped(byName, c.additions, c.deletions, name)
    ensures name in byName <==> Mentions(c, name)
    ensures name in byName ==> byName[name] == GroupOf(c, name)
  {}

  method BatchChange(c: Change, batchSize: int) returns (changes: seq<Change>)
    ensures batchSize == 0 ==> changes == [c]
    ensures batchSize != 0 ==> changes == Batches(c, batchSize)
  {
    if batchSize == 0 {
      return [c];
    }
    hide Pack, Map, SortedNames, SortBy, SortedBy, DistinctKeys, Mentions, Named, NoRepeats, Grouped;
    var byName := GroupByName(c);
    forall n ensures n in byName <==> Mentions(c, n) ensures n in byName ==> byName[n] == GroupOf(c, n) {
      GroupsHeld(c, byName, n);
    }
    var keys := ListKeys(byName.Keys);
    SortedKeys(c, keys);
    var names := SortBy(keys, Self);
    SortedNamesFacts(c);
    changes := PackNames(c, names, byName, batchSize);
  }

  method PackNames(
    c: Change, names: seq<string>, byName: map<string, Change>, batchSize: int) returns (changes: seq<Change>)
    requires forall n | n in names :: Mentions(c, n) && n in byName && byName[n] == GroupOf(c, n)
    ensures changes == Map(Merger(c), Pack(c, names, batchSize))
  {
    hide Mentions, GroupOf, Map, Pack, Packing, Join, Merger;
    changes := [];
    var currentChange, totalChanges := NO_CHANGE, 0;
    ghost var parts: seq<seq<string>>, part: seq<string> := [], [];
    StartPacking(c, names[..0], batchSize);
    for i := 0 to |names|
      invariant Packing(c, names[..i], batchSize, parts, part, changes, currentChange, totalChanges)
    {
      var name := names[i];
      var group := byName[name];
      var totalChangesByName := |group.additions| + |group.deletions|;
      PackingStep(c, names, i, batchSize, parts, part, changes, currentChange, totalChanges);
      if totalChangesByName > batchSize {
        continue;
      }
      if totalChanges + totalChangesByName > batchSize {
        totalChanges := 0;
        changes := changes + [currentChange];
        parts, part := parts + [part], [];
        currentChange := NO_CHANGE;
      }
      currentChange := Join(currentChange, group);
      part := part + [name];
      totalChanges := totalChanges + totalChangesByName;
    }
    assert names[..|names|] == names;
    PackingEnds(c, names, batchSize, parts, part, changes, currentChange, totalChanges);
    if totalChanges > 0 {
      changes := changes + [currentChange];
    }
  }

  /** Where the loop is after the names so far: the full batches, the one being filled and its size. */
  ghost predicate Packing(
    c: Change, names: seq<string>, limit: int, parts: seq<seq<string>>, part: seq<string>,
    changes: seq<Change>, current: Change, total: int)
  {
    && changes == Map(Merger(c), parts) && current == Merge(c, part) && total == Size(current)
    && (part == [] <==> total == 0) && (part == [] ==> parts == [])
    && Pack(c, names, limit) == parts + if part == [] then [] else [part]
  }

  lemma StartPacking(c: Change, names: seq<string>, limit: int)
    requires names == []
    ensures Packing(c, names, limit, [], [], [], NO_CHANGE, 0)
  {}

  lemma PackingStep(
    c: Change, names: seq<string>, i: nat, limit: int, parts: seq<seq<string>>, part: seq<string>,
    changes: seq<Change>, current: Change, total: int)
    requires i < |names| && Mentions(c, names[i]) && Packing(c, names[..i], limit, parts, part, changes, current, total)
    ensures var group := GroupOf(c, names[i]);
            if Size(group) > limit then Packing(c, names[..i + 1], limit, parts, part, changes, current, total)
            else if total + Size(group) > limit then
              Packing(c, names[..i + 1], limit, parts + [part], [] + [names[i]], changes + [current],
                Join(NO_CHANGE, group), 0 + Size(group))
            else
              Packing(c, names[..i + 1], limit, parts, part + [names[i]], changes, Join(current, group),
                total + Size(group))
  {
    hide Pack, Map, Mentions, GroupOf, Merge, Join;
    PackStep(c, names, i, limit, parts, part);
    Grow(c, part, names[i]);
    Grow(c, [], names[i]);
    assert [] + [names[i]] == [names[i]];
    MergeNone(c);
    MapLast(Merger(c), parts, part);
  }

  lemma MergeNone(c: Change)
    ensures Merge(c, []) == NO_CHANGE
  {}

  lemma PackingEnds(
    c: Change, names: seq<string>, limit: int, parts: seq<seq<string>>, part: seq<string>,
    changes: seq<Change>, current: Change, total: int)
    requires Packing(c, names, limit, parts, part, changes, current, total)
    ensures Map(Merger(c), Pack(c, names, limit)) == if total > 0 then changes + [current] else changes
  {
    hide Pack, Map, Merge;
    MapLast(Merger(c), parts, part);
    assert parts + [] == parts;
  }

  lemma Grow(c: Change, part: seq<string>, name: string)
    ensures Merge(c, part + [name]) == Join(Merge(c, part), GroupOf(c, name))
    ensures Mentions(c, name) ==> Size(GroupOf(c, name)) > 0
    ensures Size(Join(Merge(c, part), GroupOf(c, name))) == Size(Merge(c, part)) + Size(GroupOf(c, name))
  {
    MergeLast(c, part, name);
  }

  lemma PackStep(c: Change, names: seq<string>, i: nat, limit: int, parts: seq<seq<string>>, part: seq<string>)
    requires i < |names| && (part == [] ==> parts == [])
    requires Pack(c, names[..i], limit) == parts + if part == [] then [] else [part]
    ensures Pack(c, names[..i + 1], limit) ==
      if Size(GroupOf(c, names[i])) > limit then parts + if part == [] then [] else [part]
      else if part != [] && Load(c, part) + Size(GroupOf(c, names[i])) > limit then parts + [part] + [[names[i]]]
      else parts + [part + [names[i]]]
  {
    hide Load, GroupOf, Size;
    var name, before := names[i], Pack(c, names[..i], limit);
    assert names[..i + 1][..i] == names[..i];
    if part == [] {
      assert before == [] && [] + [name] == [name];
    } else {
      assert before[|before| - 1] == part && before[..|before| - 1] == parts;
    }
  }
}
