/**
 * The records shared by every part of the HR toolbox: a participant, a group
 * of participants and the three views of the application, together with a
 * few facts about subsequences that the other modules use.
 */
module Types {

  /** A person on the list. Identity is by `id`; names may repeat. */
  datatype Participant = Participant(id: string, name: string)

  /** One group produced by the partitioner: `id` is its 1-based ordinal. */
  datatype Group = Group(id: int, name: string, members: seq<Participant>)

  /** The three screens the navigation bar switches between. */
  datatype ViewType = Input | LuckyDraw | Grouping

  /** A value that may be absent (the source's `null`). */
  datatype Option<T> = None | Some(value: T)

  /** The names of a list of participants, in order (`participants.map(p => p.name)`). */
  function Names(ps: seq<Participant>): (r: seq<string>)
    ensures |r| == |ps|
    ensures forall k :: 0 <= k < |ps| ==> r[k] == ps[k].name
  {
    seq(|ps|, k requires 0 <= k < |ps| => ps[k].name)
  }

  lemma NamesConcat(a: seq<Participant>, b: seq<Participant>)
    ensures Names(a + b) == Names(a) + Names(b)
  {
  }

  /** No two entries share an id. */
  predicate UniqueIds(ps: seq<Participant>) {
    forall i, j :: 0 <= i < j < |ps| ==> ps[i].id != ps[j].id
  }

  /** `sub` is obtained from `s` by deleting some elements, keeping the order of the rest. */
  predicate IsSubsequence<T(==)>(sub: seq<T>, s: seq<T>)
    decreases |s|
  {
    if sub == [] then true
    else if s == [] then false
    else (sub[0] == s[0] && IsSubsequence(sub[1..], s[1..])) || IsSubsequence(sub, s[1..])
  }

  lemma {:induction false} SubsequenceRefl<T>(s: seq<T>)
    ensures IsSubsequence(s, s)
  {
    if s != [] {
      SubsequenceRefl(s[1..]);
    }
  }

  /** A subsequence keeps only elements of the original, and is no longer. */
  lemma {:induction false} SubsequenceElements<T>(sub: seq<T>, s: seq<T>)
    requires IsSubsequence(sub, s)
    ensures |sub| <= |s|
    ensures forall x :: x in sub ==> x in s
    decreases |s|
  {
    if sub != [] {
      if sub[0] == s[0] && IsSubsequence(sub[1..], s[1..]) {
        SubsequenceElements(sub[1..], s[1..]);
        assert forall x :: x in sub ==> x == sub[0] || x in sub[1..];
      } else {
        SubsequenceElements(sub, s[1..]);
      }
      assert forall x :: x in s[1..] ==> x in s;
    }
  }

  lemma {:induction false} SubsequenceTrans<T>(a: seq<T>, b: seq<T>, c: seq<T>)
    requires IsSubsequence(a, b) && IsSubsequence(b, c)
    ensures IsSubsequence(a, c)
    decreases |c|
  {
    if a != [] {
      assert b != [] && c != [];
      if IsSubsequence(b, c[1..]) {
        SubsequenceTrans(a, b, c[1..]);
      } else if IsSubsequence(a, b[1..]) {
        SubsequenceTrans(a, b[1..], c[1..]);
      } else {
        SubsequenceTrans(a[1..], b[1..], c[1..]);
      }
    }
  }
}
