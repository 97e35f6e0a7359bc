/**
 * The group generator: after a short delay it shuffles the participants and
 * cuts the shuffled list into consecutive groups of `groupSize`; the groups can
 * be exported as CSV text.
 */
module GroupGenerator {
  import opened Types
  import opened Text

  function Min(a: int, b: int): int {
    if a <= b then a else b
  }

  /** The label of group `ordinal`: `第 ${ordinal} 組`. */
  function GroupLabel(ordinal: nat): string {
    "第 " + NatToString(ordinal) + " 組"
  }

  /** All members of the groups, group after group. */
  function Flatten(groups: seq<Group>): seq<Participant> {
    if groups == [] then [] else groups[0].members + Flatten(groups[1..])
  }

  lemma {:induction false} FlattenSnoc(groups: seq<Group>, g: Group)
    ensures Flatten(groups + [g]) == Flatten(groups) + g.members
  {
    if groups == [] {
      assert Flatten([g]) == g.members + Flatten([]);
    } else {
      assert (groups + [g])[1..] == groups[1..] + [g];
      FlattenSnoc(groups[1..], g);
    }
  }

  /**
   * `shuffled` cut into consecutive chunks of `size`, numbered from `ordinal`:
   * each group takes `shuffled.slice(i, i + size)` for i = 0, size, 2 * size, ...
   */
  function Chunks(shuffled: seq<Participant>, size: int, ordinal: nat): seq<Group>
    requires size >= 1
    decreases |shuffled|
  {
    if shuffled == [] then []
    else
      var end := Min(size, |shuffled|);
      [Group(ordinal, GroupLabel(ordinal), shuffled[..end])] + Chunks(shuffled[end..], size, ordinal + 1)
  }

  /** Chunking keeps the shuffled list: the members, group after group, are exactly it. */
  lemma {:induction false} ChunksFlatten(shuffled: seq<Participant>, size: int, ordinal: nat)
    requires size >= 1
    ensures Flatten(Chunks(shuffled, size, ordinal)) == shuffled
    decreases |shuffled|
  {
    if shuffled != [] {
      var end := Min(size, |shuffled|);
      ChunksFlatten(shuffled[end..], size, ordinal + 1);
      assert shuffled == shuffled[..end] + shuffled[end..];
    }
  }

  /** The number of groups is the least c whose c groups of `size` cover the list. */
  lemma {:induction false} ChunksCount(shuffled: seq<Participant>, size: int, ordinal: nat)
    requires size >= 1
    ensures Offset(|Chunks(shuffled, size, ordinal)|, size) >= |shuffled|
    ensures Chunks(shuffled, size, ordinal) != [] ==>
              Offset(|Chunks(shuffled, size, ordinal)| - 1, size) < |shuffled|
    decreases |shuffled|
  {
    if shuffled != [] {
      var end := Min(size, |shuffled|);
      var rest := shuffled[end..];
      ChunksCount(rest, size, ordinal + 1);
      var m := |Chunks(rest, size, ordinal + 1)|;
      assert |Chunks(shuffled, size, ordinal)| == m + 1;
      OffsetShift(m, size);
    }
  }

  /** Counting groups from the second one on: one step of `size` less. */
  lemma {:induction false} OffsetShift(m: nat, size: int)
    ensures Offset(m + 1, size) == Offset(m, size) + size
    ensures m > 0 ==> Offset(m, size) == Offset(m - 1, size) + size
  {
  }

  /** Ordinals and labels count up from `ordinal`. */
  lemma {:induction false} ChunksLabels(shuffled: seq<Participant>, size: int, ordinal: nat)
    requires size >= 1
    ensures forall k :: 0 <= k < |Chunks(shuffled, size, ordinal)| ==>
              && Chunks(shuffled, size, ordinal)[k].id == ordinal + k
              && Chunks(shuffled, size, ordinal)[k].name == GroupLabel(ordinal + k)
    decreases |shuffled|
  {
    if shuffled != [] {
      var end := Min(size, |shuffled|);
      var c := Chunks(shuffled, size, ordinal);
      var cr := Chunks(shuffled[end..], size, ordinal + 1);
      ChunksLabels(shuffled[end..], size, ordinal + 1);
      assert c == [c[0]] + cr;
      forall k | 1 <= k < |c| ensures c[k] == cr[k - 1] {
      }
    }
  }

  /** Every group but the last is full, and the last holds between 1 and `size` members. */
  lemma {:induction false} ChunksSizes(shuffled: seq<Participant>, size: int, ordinal: nat)
    requires size >= 1
    ensures forall k :: 0 <= k < |Chunks(shuffled, size, ordinal)| - 1 ==>
              |Chunks(shuffled, size, ordinal)[k].members| == size
    ensures Chunks(shuffled, size, ordinal) != [] ==>
              1 <= |Chunks(shuffled, size, ordinal)[|Chunks(shuffled, size, ordinal)| - 1].members| <= size
    decreases |shuffled|
  {
    if shuffled != [] {
      var end := Min(size, |shuffled|);
      var c := Chunks(shuffled, size, ordinal);
      var cr := Chunks(shuffled[end..], size, ordinal + 1);
      ChunksSizes(shuffled[end..], size, ordinal + 1);
      assert c == [c[0]] + cr;
      if cr != [] {
        assert |shuffled[end..]| > 0;
        assert |c[0].members| == size;
      }
      forall k | 1 <= k < |c| ensures c[k] == cr[k - 1] {
      }
    }
  }

  /** The number of groups is ceil(n / size); a size of at least n gives a single group. */
  lemma GroupCount(shuffled: seq<Participant>, size: int)
    requires size >= 1
    ensures |Chunks(shuffled, size, 1)| == (|shuffled| + size - 1) / size
    ensures 1 <= |shuffled| <= size ==> |Chunks(shuffled, size, 1)| == 1
  {
    var c := |Chunks(shuffled, size, 1)|;
    ChunksCount(shuffled, size, 1);
    OffsetDiv(c, size);
    if c == 0 {
      assert |shuffled| == 0;
      DivUnique(size - 1, size, 0);
    } else {
      OffsetDiv(c - 1, size);
      MulSucc(c - 1, size);
      MulMonotone(1, c - 1, size);
      DivUnique(|shuffled| + size - 1, size, c);
    }
  }

  lemma MulSucc(a: int, b: int)
    ensures (a + 1) * b == a * b + b
  {
  }

  lemma MulMonotone(a: int, b: int, d: int)
    ensures a <= b && d >= 0 ==> a * d <= b * d
  {
  }

  /** Euclidean division has a unique quotient. */
  lemma DivUnique(x: int, d: int, q: int)
    requires d >= 1 && q * d <= x < q * d + d
    ensures x / d == q
  {
    var r := x / d;
    var m := x % d;
    assert x == r * d + m && 0 <= m < d;
    MulMonotone(q + 1, r, d);
    MulMonotone(r + 1, q, d);
    MulSucc(q, d);
    MulSucc(r, d);
  }

  /** Where group `count` starts: `count` steps of `size`, written without multiplication. */
  function Offset(count: nat, size: int): int {
    if count == 0 then 0 else Offset(count - 1, size) + size
  }

  /** Group `count` starts at `count * size`, so `Math.floor(offset / size)` is `count`. */
  lemma {:induction false} OffsetDiv(count: nat, size: int)
    requires size >= 1
    ensures Offset(count, size) == count * size
    ensures Offset(count, size) / size == count
  {
    if count > 0 {
      OffsetDiv(count - 1, size);
      MulSucc(count - 1, size);
    }
    DivUnique(Offset(count, size), size, count);
  }

  /** One step of chunking from position `i`. */
  lemma ChunksStep(shuffled: seq<Participant>, size: int, i: nat, ordinal: nat)
    requires size >= 1 && i < |shuffled|
    ensures Chunks(shuffled[i..], size, ordinal)
            == [Group(ordinal, GroupLabel(ordinal), shuffled[i..Min(i + size, |shuffled|)])]
               + Chunks(shuffled[Min(i + size, |shuffled|)..], size, ordinal + 1)
  {
    var rest := shuffled[i..];
    assert rest[..Min(size, |rest|)] == shuffled[i..Min(i + size, |shuffled|)];
    assert rest[Min(size, |rest|)..] == shuffled[Min(i + size, |shuffled|)..];
  }

  /** The chunking loop of `generateGroups`'s timer callback. */
  method Partition(shuffled: seq<Participant>, groupSize: int) returns (newGroups: seq<Group>)
    requires groupSize >= 1
    ensures newGroups == Chunks(shuffled, groupSize, 1)
  {
    newGroups := [];
    var n := |shuffled|;
    var i := 0;
    while i < n
      invariant i == Offset(|newGroups|, groupSize)
      invariant newGroups + Chunks(shuffled[Min(i, n)..], groupSize, |newGroups| + 1)
                == Chunks(shuffled, groupSize, 1)
      decreases n - i
    {
      OffsetDiv(|newGroups|, groupSize);
      var ordinal := i / groupSize + 1;
      var end := Min(i + groupSize, n);
      var g := Group(ordinal, GroupLabel(ordinal), shuffled[i..end]);
      ghost var later := Chunks(shuffled[end..], groupSize, ordinal + 1);
      assert Min(i, n) == i;
      ChunksStep(shuffled, groupSize, i, ordinal);
      assert newGroups + ([g] + later) == Chunks(shuffled, groupSize, 1);
      assert (newGroups + [g]) + later == newGroups + ([g] + later);
      newGroups := newGroups + [g];
      i := i + groupSize;
      assert Min(i, n) == end && |newGroups| + 1 == ordinal + 1;
    }
    assert shuffled[Min(i, n)..] == [];
  }

  // ---------------------------------------------------------------------------
  // CSV export
  // ---------------------------------------------------------------------------

  /** The header line of the export. */
  const CsvHeader: string := "組別,姓名\n"

  /** The byte-order mark put in front of the exported text. */
  const Bom: char := '\U{FEFF}'

  /** One line of the export: `${group.name},${member.name}\n`. */
  function CsvLine(group: Group, member: Participant): string {
    group.name + "," + member.name + "\n"
  }

  /** The lines of one group, one per member, in member order. */
  function GroupLines(group: Group, members: seq<Participant>): string {
    if members == [] then []
    else GroupLines(group, members[..|members| - 1]) + CsvLine(group, members[|members| - 1])
  }

  /** The lines of all groups, group after group. */
  function CsvRows(groups: seq<Group>): string {
    if groups == [] then []
    else CsvRows(groups[..|groups| - 1]) + GroupLines(groups[|groups| - 1], groups[|groups| - 1].members)
  }

  /** The number of occurrences of `c` in `s`. */
  function Occurrences(s: string, c: char): nat {
    if s == [] then 0 else Occurrences(s[..|s| - 1], c) + (if s[|s| - 1] == c then 1 else 0)
  }

  lemma {:induction false} OccurrencesConcat(a: string, b: string, c: char)
    ensures Occurrences(a + b, c) == Occurrences(a, c) + Occurrences(b, c)
    decreases |b|
  {
    if b == [] {
      assert a + b == a;
    } else {
      assert (a + b)[..|a + b| - 1] == a + b[..|b| - 1];
      OccurrencesConcat(a, b[..|b| - 1], c);
    }
  }

  lemma {:induction false} OccurrencesAbsent(s: string, c: char)
    requires c !in s
    ensures Occurrences(s, c) == 0
  {
    if s != [] {
      assert c !in s[..|s| - 1];
      OccurrencesAbsent(s[..|s| - 1], c);
    }
  }

  /** No label or member name contains a line break. */
  predicate SingleLineNames(groups: seq<Group>) {
    forall k :: 0 <= k < |groups| ==>
      '\n' !in groups[k].name && forall m :: m in groups[k].members ==> '\n' !in m.name
  }

  lemma {:induction false} GroupLinesCount(group: Group, members: seq<Participant>)
    requires '\n' !in group.name && forall m :: m in members ==> '\n' !in m.name
    ensures Occurrences(GroupLines(group, members), '\n') == |members|
    decreases |members|
  {
    if members != [] {
      var last := members[|members| - 1];
      GroupLinesCount(group, members[..|members| - 1]);
      OccurrencesConcat(GroupLines(group, members[..|members| - 1]), CsvLine(group, last), '\n');
      OccurrencesConcat(group.name + "," + last.name, "\n", '\n');
      OccurrencesConcat(group.name + ",", last.name, '\n');
      OccurrencesConcat(group.name, ",", '\n');
      OccurrencesAbsent(group.name, '\n');
      OccurrencesAbsent(last.name, '\n');
      assert Occurrences(",", '\n') == 0 && Occurrences("\n", '\n') == 1;
    }
  }

  /** The rows hold one line per member of every group. */
  lemma {:induction false} CsvRowsCount(groups: seq<Group>)
    requires SingleLineNames(groups)
    ensures Occurrences(CsvRows(groups), '\n') == |Flatten(groups)|
    decreases |groups|
  {
    if groups != [] {
      var last := groups[|groups| - 1];
      CsvRowsCount(groups[..|groups| - 1]);
      GroupLinesCount(last, last.members);
      assert groups == groups[..|groups| - 1] + [last];
      FlattenSnoc(groups[..|groups| - 1], last);
      OccurrencesConcat(CsvRows(groups[..|groups| - 1]), GroupLines(last, last.members), '\n');
    }
  }

  /** The whole export has one line more (the header) than there are members. */
  lemma CsvLineCount(groups: seq<Group>)
    requires SingleLineNames(groups)
    ensures Occurrences(CsvHeader + CsvRows(groups), '\n') == 1 + |Flatten(groups)|
  {
    CsvRowsCount(groups);
    OccurrencesConcat(CsvHeader, CsvRows(groups), '\n');
    assert Occurrences(CsvHeader, '\n') == 1 by {
      assert CsvHeader[..|CsvHeader| - 1] == "組別,姓名";
      OccurrencesAbsent("組別,姓名", '\n');
    }
  }

  /** A group label never contains a line break. */
  lemma GroupLabelSingleLine(ordinal: nat)
    ensures '\n' !in GroupLabel(ordinal)
  {
    var digits := NatToString(ordinal);
    var shown := GroupLabel(ordinal);
    assert shown == "第 " + digits + " 組";
    forall k | 0 <= k < |shown| ensures shown[k] != '\n' {
      if 2 <= k < 2 + |digits| {
        assert shown[k] == digits[k - 2];
      }
    }
  }

  // ---------------------------------------------------------------------------
  // The panel
  // ---------------------------------------------------------------------------

  /** A scheduled timer callback of `generateGroups`, with the list and size it captured. */
  datatype Job = Job(members: seq<Participant>, groupSize: int)

  class GroupPanel {
    var participants: seq<Participant>
    var groupSize: int
    var groups: seq<Group>
    var isGenerating: bool
    /** The timer callbacks scheduled and not yet run, oldest first. */
    var jobs: seq<Job>

    constructor (participants: seq<Participant>)
      ensures this.participants == participants && groupSize == 4
      ensures groups == [] && !isGenerating && jobs == []
    {
      this.participants := participants;
      groupSize, groups, isGenerating, jobs := 4, [], false, [];
    }

    /** The size field: `Number(e.target.value)`, not checked against its `min`. */
    method SetGroupSize(size: int)
      modifies this
      ensures groupSize == size
      ensures participants == old(participants) && groups == old(groups)
      ensures isGenerating == old(isGenerating) && jobs == old(jobs)
    {
      groupSize := size;
    }

    /** The click on the generate button: refused below two participants, else the timer is set. */
    method BeginGenerate()
      modifies this
      ensures |participants| < 2 ==> unchanged(this)
      ensures |participants| >= 2 ==>
        && isGenerating && jobs == old(jobs) + [Job(participants, groupSize)]
        && groups == old(groups)
      ensures participants == old(participants) && groupSize == old(groupSize)
    {
      if |participants| < 2 {
        return;
      }
      isGenerating := true;
      jobs := jobs + [Job(participants, groupSize)];
    }

    /**
     * The oldest timer callback runs. `shuffled` is what the random-comparator sort
     * made of the captured list: some permutation of it. The loop ends only for a
     * size of at least one.
     */
    method CompleteGenerate(shuffled: seq<Participant>)
      requires jobs != [] && jobs[0].groupSize >= 1
      requires multiset(shuffled) == multiset(jobs[0].members)
      modifies this
      ensures groups == Chunks(shuffled, old(jobs[0].groupSize), 1)
      ensures multiset(Flatten(groups)) == multiset(old(jobs[0].members))
      ensures !isGenerating && jobs == old(jobs[1..])
      ensures participants == old(participants) && groupSize == old(groupSize)
    {
      var job := jobs[0];
      var newGroups := Partition(shuffled, job.groupSize);
      ChunksFlatten(shuffled, job.groupSize, 1);
      groups := newGroups;
      isGenerating := false;
      jobs := jobs[1..];
    }

    /** The export button: nothing without groups, else the BOM and the CSV text that the Blob holds. */
    method ExportToCsv() returns (csv: Option<string>)
      ensures groups == [] <==> csv == None
      ensures groups != [] ==> csv == Some([Bom] + CsvHeader + CsvRows(groups))
    {
      if |groups| == 0 {
        return None;
      }
      var csvContent := CsvHeader;
      for gi := 0 to |groups|
        invariant csvContent == CsvHeader + CsvRows(groups[..gi])
      {
        var group := groups[gi];
        ghost var before := csvContent;
        for mi := 0 to |group.members|
          invariant csvContent == before + GroupLines(group, group.members[..mi])
        {
          assert group.members[..mi + 1][..mi] == group.members[..mi];
          assert GroupLines(group, group.members[..mi + 1])
                 == GroupLines(group, group.members[..mi]) + CsvLine(group, group.members[mi]);
          csvContent := csvContent + CsvLine(group, group.members[mi]);
        }
        assert group.members[..|group.members|] == group.members;
        assert groups[..gi + 1][..gi] == groups[..gi];
        assert CsvRows(groups[..gi + 1]) == CsvRows(groups[..gi]) + GroupLines(group, group.members);
      }
      assert groups[..|groups|] == groups;
      assert [Bom] + csvContent == [Bom] + CsvHeader + CsvRows(groups);
      csv := Some([Bom] + csvContent);
    }
  }

  /** Groups made by the generator have single-line labels, and single-line member names stay so. */
  lemma {:induction false} ChunksSingleLine(shuffled: seq<Participant>, size: int, ordinal: nat)
    requires size >= 1
    requires forall p :: p in shuffled ==> '\n' !in p.name
    ensures SingleLineNames(Chunks(shuffled, size, ordinal))
    decreases |shuffled|
  {
    if shuffled != [] {
      var end := Min(size, |shuffled|);
      var c := Chunks(shuffled, size, ordinal);
      ChunksSingleLine(shuffled[end..], size, ordinal + 1);
      GroupLabelSingleLine(ordinal);
      assert c[1..] == Chunks(shuffled[end..], size, ordinal + 1);
      forall k | 0 <= k < |c|
        ensures '\n' !in c[k].name && forall m :: m in c[k].members ==> '\n' !in m.name
      {
        if k > 0 {
          assert c[k] == c[1..][k - 1];
        }
      }
    }
  }
}
