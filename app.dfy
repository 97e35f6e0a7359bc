/**
 * The application shell: it owns the participant list and the current view.
 * Committing a list of names turns each non-blank name into a participant
 * whose id is the clock reading taken for that name and the name's index; the main area shows
 * a notice instead of the draw or grouping panel while the list is empty.
 */
module App {
  import opened Types
  import opened Text
  import opened ParticipantInput

  /** The id given to the name at `index` when `Date.now()` reads `t`: `${t}-${index}`. */
  function Id(t: nat, index: nat): string {
    NatToString(t) + "-" + NatToString(index)
  }

  /** The position of the first `-` in `s`, or its length when there is none. */
  function DashIndex(s: string): (i: nat)
    ensures i <= |s|
  {
    if s == [] || s[0] == '-' then 0 else 1 + DashIndex(s[1..])
  }

  /** A rendered number holds no `-`, so in `digits + "-" + rest` the first `-` follows the digits. */
  lemma {:induction false} DashAfterDigits(digits: string, rest: string)
    requires AllDigits(digits)
    ensures DashIndex(digits + "-" + rest) == |digits|
  {
    var s := digits + "-" + rest;
    if digits != [] {
      assert s[1..] == digits[1..] + "-" + rest;
      DashAfterDigits(digits[1..], rest);
    }
  }

  /** Two ids agree only when both the clock readings and the indices do. */
  lemma IdInjective(t1: nat, j: nat, t2: nat, k: nat)
    requires Id(t1, j) == Id(t2, k)
    ensures t1 == t2 && j == k
  {
    var a, b := NatToString(t1), NatToString(t2);
    var s := Id(t1, j);
    DashAfterDigits(a, NatToString(j));
    DashAfterDigits(b, NatToString(k));
    assert |a| == |b|;
    assert a == s[..|a|] == b;
    NatToStringInjective(t1, t2);
    assert s[|a| + 1..] == NatToString(j);
    assert Id(t2, k)[|b| + 1..] == NatToString(k);
    NatToStringInjective(j, k);
  }

  /**
   * `names.map((name, index) => ({ id, name: name.trim() }))`, indices counted from `from`.
   * The callback reads the clock once per name, so each index has its own reading.
   */
  function Numbered(names: seq<string>, clock: nat -> nat, from: nat): seq<Participant> {
    if names == [] then []
    else [Participant(Id(clock(from), from), Trim(names[0]))] + Numbered(names[1..], clock, from + 1)
  }

  /** `.filter(p => p.name.length > 0)`. */
  function KeepNamed(ps: seq<Participant>): seq<Participant> {
    if ps == [] then []
    else (if |ps[0].name| > 0 then [ps[0]] else []) + KeepNamed(ps[1..])
  }

  /** The participant list a commit of `names` produces when the k-th `Date.now()` reads `clock(k)`. */
  function Commit(names: seq<string>, clock: nat -> nat): seq<Participant> {
    KeepNamed(Numbered(names, clock, 0))
  }

  // --- the mapping step -------------------------------------------------------

  /** Entry `j` of the mapping is the trimmed name `j` with id `${clock(from + j)}-${from + j}`. */
  lemma {:induction false} NumberedEntries(names: seq<string>, clock: nat -> nat, from: nat)
    ensures |Numbered(names, clock, from)| == |names|
    ensures forall j :: 0 <= j < |names| ==>
              Numbered(names, clock, from)[j] == Participant(Id(clock(from + j), from + j), Trim(names[j]))
  {
    if names != [] {
      NumberedEntries(names[1..], clock, from + 1);
      var ns := Numbered(names, clock, from);
      forall j | 1 <= j < |names|
        ensures ns[j] == Participant(Id(clock(from + j), from + j), Trim(names[j]))
      {
        assert ns[j] == Numbered(names[1..], clock, from + 1)[j - 1];
      }
    }
  }

  lemma NumberedUniqueIds(names: seq<string>, clock: nat -> nat, from: nat)
    ensures UniqueIds(Numbered(names, clock, from))
  {
    NumberedEntries(names, clock, from);
    var ns := Numbered(names, clock, from);
    forall i, j | 0 <= i < j < |ns| ensures ns[i].id != ns[j].id {
      if ns[i].id == ns[j].id {
        IdInjective(clock(from + i), from + i, clock(from + j), from + j);
      }
    }
  }

  lemma {:induction false} NumberedNames(names: seq<string>, clock: nat -> nat, from: nat)
    ensures Names(Numbered(names, clock, from)) == TrimAll(names)
  {
    if names != [] {
      NumberedNames(names[1..], clock, from + 1);
      var ns := Numbered(names, clock, from);
      assert Names(ns) == [ns[0].name] + Names(ns[1..]);
    }
  }

  // --- the filtering step -----------------------------------------------------

  /** Filtering keeps the order, and keeps exactly the entries with a non-empty name. */
  lemma {:induction false} KeepNamedSubsequence(ps: seq<Participant>)
    ensures IsSubsequence(KeepNamed(ps), ps)
    ensures forall p :: p in KeepNamed(ps) <==> p in ps && p.name != []
  {
    if ps != [] {
      KeepNamedSubsequence(ps[1..]);
      var rest := KeepNamed(ps[1..]);
      if |ps[0].name| > 0 {
        assert KeepNamed(ps) == [ps[0]] + rest;
        assert KeepNamed(ps)[1..] == rest;
      } else {
        assert KeepNamed(ps) == rest;
      }
      assert forall p :: p in ps <==> p == ps[0] || p in ps[1..];
    }
  }

  lemma {:induction false} KeepNamedNames(ps: seq<Participant>)
    ensures Names(KeepNamed(ps)) == DropEmpty(Names(ps))
  {
    if ps != [] {
      KeepNamedNames(ps[1..]);
      var head := if |ps[0].name| > 0 then [ps[0]] else [];
      var names := Names(ps);
      assert names[0] == ps[0].name && names[1..] == Names(ps[1..]);
      assert DropEmpty(names) == (if names[0] == [] then [] else [names[0]]) + DropEmpty(names[1..]);
      NamesConcat(head, KeepNamed(ps[1..]));
      assert Names(head) == if |ps[0].name| > 0 then [ps[0].name] else [];
    }
  }

  /** A list with a head has unique ids exactly when its tail does and no tail entry has the head's id. */
  lemma UniqueIdsCons(p: Participant, rest: seq<Participant>)
    ensures UniqueIds([p] + rest) <==> UniqueIds(rest) && forall q :: q in rest ==> q.id != p.id
  {
    var ps := [p] + rest;
    if UniqueIds(ps) {
      forall i, j | 0 <= i < j < |rest| ensures rest[i].id != rest[j].id {
        assert rest[i] == ps[i + 1] && rest[j] == ps[j + 1];
      }
      forall q | q in rest ensures q.id != p.id {
        var m :| 0 <= m < |rest| && rest[m] == q;
        assert ps[0] == p && ps[m + 1] == q;
      }
    }
    if UniqueIds(rest) && forall q :: q in rest ==> q.id != p.id {
      forall i, j | 0 <= i < j < |ps| ensures ps[i].id != ps[j].id {
        assert ps[j] == rest[j - 1];
        if i > 0 {
          assert ps[i] == rest[i - 1];
        }
      }
    }
  }

  lemma {:induction false} KeepNamedUniqueIds(ps: seq<Participant>)
    requires UniqueIds(ps)
    ensures UniqueIds(KeepNamed(ps))
  {
    if ps != [] {
      assert ps == [ps[0]] + ps[1..];
      UniqueIdsCons(ps[0], ps[1..]);
      KeepNamedUniqueIds(ps[1..]);
      KeepNamedSubsequence(ps[1..]);
      var rest := KeepNamed(ps[1..]);
      if |ps[0].name| > 0 {
        UniqueIdsCons(ps[0], rest);
      } else {
        assert KeepNamed(ps) == rest;
      }
    }
  }

  // --- what a commit promises -------------------------------------------------

  /** A commit keeps the input order and yields at most one participant per name. */
  lemma CommitOrder(names: seq<string>, clock: nat -> nat)
    ensures IsSubsequence(Commit(names, clock), Numbered(names, clock, 0))
    ensures |Commit(names, clock)| <= |names|
  {
    KeepNamedSubsequence(Numbered(names, clock, 0));
    SubsequenceElements(Commit(names, clock), Numbered(names, clock, 0));
    NumberedEntries(names, clock, 0);
  }

  /** Each mapped entry is some input name k, trimmed, with id `${clock(k)}-${k}`. */
  lemma NumberedMember(names: seq<string>, clock: nat -> nat, p: Participant)
    requires p in Numbered(names, clock, 0)
    ensures exists k :: 0 <= k < |names| && p == Participant(Id(clock(k), k), Trim(names[k]))
  {
    NumberedEntries(names, clock, 0);
    var ns := Numbered(names, clock, 0);
    var k :| 0 <= k < |ns| && ns[k] == p;
    assert ns[k] == Participant(Id(clock(k), k), Trim(names[k]));
  }

  /** Each committed participant is input name k, trimmed, with id `${clock(k)}-${k}`. */
  lemma CommitEntries(names: seq<string>, clock: nat -> nat)
    ensures forall p :: p in Commit(names, clock) ==>
              exists k :: 0 <= k < |names| && p == Participant(Id(clock(k), k), Trim(names[k]))
  {
    forall p | p in Commit(names, clock)
      ensures exists k :: 0 <= k < |names| && p == Participant(Id(clock(k), k), Trim(names[k]))
    {
      KeepNamedSubsequence(Numbered(names, clock, 0));
      NumberedMember(names, clock, p);
    }
  }

  /** The committed names are the input names trimmed, blank ones dropped: the parser's cleaning. */
  lemma CommitNames(names: seq<string>, clock: nat -> nat)
    ensures Names(Commit(names, clock)) == DropEmpty(TrimAll(names))
  {
    KeepNamedNames(Numbered(names, clock, 0));
    NumberedNames(names, clock, 0);
  }

  /** Every committed name is non-empty and equals its own trim. */
  lemma CommitTrimmed(names: seq<string>, clock: nat -> nat)
    ensures forall p :: p in Commit(names, clock) ==> p.name != [] && Trim(p.name) == p.name
  {
    CommitEntries(names, clock);
    KeepNamedSubsequence(Numbered(names, clock, 0));
    forall p | p in Commit(names, clock) ensures p.name != [] && Trim(p.name) == p.name {
      var k :| 0 <= k < |names| && p == Participant(Id(clock(k), k), Trim(names[k]));
      TrimIdempotent(names[k]);
    }
  }

  /** No two participants of one commit share an id. */
  lemma CommitUniqueIds(names: seq<string>, clock: nat -> nat)
    ensures UniqueIds(Commit(names, clock))
  {
    NumberedUniqueIds(names, clock, 0);
    KeepNamedUniqueIds(Numbered(names, clock, 0));
  }

  /** A commit is empty exactly when every input name is blank; in particular no names give nobody. */
  lemma CommitEmptyIff(names: seq<string>, clock: nat -> nat)
    ensures Commit(names, clock) == [] <==> forall k :: 0 <= k < |names| ==> Trim(names[k]) == []
  {
    KeepNamedSubsequence(Numbered(names, clock, 0));
    NumberedEntries(names, clock, 0);
    var ns := Numbered(names, clock, 0);
    if Commit(names, clock) == [] {
      forall k | 0 <= k < |names| ensures Trim(names[k]) == [] {
        assert ns[k] in ns;
      }
    } else {
      var p := Commit(names, clock)[0];
      assert p in Commit(names, clock);
      var k :| 0 <= k < |ns| && ns[k] == p;
    }
  }

  /** Names as the parser returns them are committed unchanged and in order. */
  lemma CommitParsed(text: string, clock: nat -> nat)
    ensures Names(Commit(Parse(text), clock)) == Parse(text)
  {
    CommitNames(Parse(text), clock);
    ParseValid(text);
    CleanOfValid(Parse(text));
  }

  /** Cleaning leaves a list of trimmed, non-empty names alone. */
  lemma {:induction false} CleanOfValid(names: seq<string>)
    requires forall n :: n in names ==> ValidName(n)
    ensures DropEmpty(TrimAll(names)) == names
  {
    if names != [] {
      CleanOfValid(names[1..]);
      assert ValidName(names[0]);
    }
  }

  // --- the view ---------------------------------------------------------------

  /** What the main area shows. */
  datatype Screen =
    | EmptyNotice     // "名單為空" with a button back to the list editor
    | Show(view: ViewType)

  /** `renderContent`: the notice while the list is empty and the view needs a list, else the view's panel. */
  function Render(participants: seq<Participant>, view: ViewType): (s: Screen)
    ensures s == EmptyNotice <==> participants == [] && view != Input
    ensures s != EmptyNotice ==> s == Show(view)
  {
    if |participants| == 0 && view != Input then EmptyNotice else Show(view)
  }

  /** After a commit with at least one non-blank name every view shows its own panel. */
  lemma RenderAfterCommit(names: seq<string>, clock: nat -> nat, view: ViewType)
    requires exists k :: 0 <= k < |names| && Trim(names[k]) != []
    ensures Render(Commit(names, clock), view) == Show(view)
  {
    CommitEmptyIff(names, clock);
  }

  /** The state the shell keeps. */
  class Shell {
    var participants: seq<Participant>
    var currentView: ViewType

    constructor ()
      ensures participants == [] && currentView == Input
    {
      participants, currentView := [], Input;
    }

    /** `handleUpdateParticipants`, with the reading of `Date.now()` for the name at index `k` passed in as `clock(k)`. */
    method HandleUpdateParticipants(names: seq<string>, clock: nat -> nat)
      modifies this
      ensures participants == Commit(names, clock)
      ensures currentView == old(currentView)
    {
      participants := Commit(names, clock);
    }

    /** The navigation buttons, the editor's next button and the notice's button. */
    method SetView(view: ViewType)
      modifies this
      ensures currentView == view && participants == old(participants)
    {
      currentView := view;
    }

    /** The main area for the current state. */
    function RenderContent(): (s: Screen)
      reads this
      ensures s == EmptyNotice <==> participants == [] && currentView != Input
      ensures s != EmptyNotice ==> s == Show(currentView)
    {
      Render(participants, currentView)
    }
  }

  /** From the empty notice, its button leads to the list editor, which then shows. */
  method LeaveNotice(shell: Shell) returns (s: Screen)
    requires shell.RenderContent() == EmptyNotice
    modifies shell
    ensures s == Show(Input)
  {
    shell.SetView(Input);
    s := shell.RenderContent();
  }
}
