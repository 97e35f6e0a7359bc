/**
 * The participant-list editor: it parses pasted or imported text into names,
 * counts repeated names, removes repeats and keeps the text of the textarea.
 */
module ParticipantInput {
  import opened Types
  import opened Text

  // ---------------------------------------------------------------------------
  // Parsing: text.split(/[\n,]+/).map(n => n.trim()).filter(n => n !== '')
  // ---------------------------------------------------------------------------

  /** The characters of the separator class `[\n,]`. */
  predicate IsSeparator(c: char) {
    c == '\n' || c == ','
  }

  /** The index of the first separator in `s`, or `|s|` if there is none. */
  function SepIndex(s: string): (k: nat)
    ensures k <= |s|
  {
    if s == [] || IsSeparator(s[0]) then 0 else 1 + SepIndex(s[1..])
  }

  /** `SepIndex` is the first separator: none before it, and one at it unless it is the end. */
  lemma {:induction false} SepIndexFirst(s: string)
    ensures forall j :: 0 <= j < SepIndex(s) ==> !IsSeparator(s[j])
    ensures SepIndex(s) < |s| ==> IsSeparator(s[SepIndex(s)])
  {
    if s != [] && !IsSeparator(s[0]) {
      SepIndexFirst(s[1..]);
      forall j | 1 <= j < SepIndex(s) ensures !IsSeparator(s[j]) {
        assert s[j] == s[1..][j - 1];
      }
    }
  }

  /** Text without separators has its "first separator" at the end. */
  lemma {:induction false} SepIndexNone(s: string)
    requires forall j :: 0 <= j < |s| ==> !IsSeparator(s[j])
    ensures SepIndex(s) == |s|
  {
    if s != [] {
      assert forall j :: 0 <= j < |s| - 1 ==> s[1..][j] == s[j + 1];
      SepIndexNone(s[1..]);
    }
  }

  /** `s` without its leading run of separators. */
  function SkipSeparators(s: string): (r: string)
    ensures |r| <= |s| && r == s[|s| - |r|..]
    ensures r != [] ==> !IsSeparator(r[0])
    ensures s != [] && IsSeparator(s[0]) ==> |r| < |s|
    ensures forall j :: 0 <= j < |s| - |r| ==> IsSeparator(s[j])
    ensures s == [] || !IsSeparator(s[0]) ==> r == s
  {
    if s != [] && IsSeparator(s[0]) then SkipSeparators(s[1..]) else s
  }

  /**
   * JavaScript's `s.split(/[\n,]+/)`: the pieces between maximal runs of
   * separators. The first and the last piece may be empty (a leading or
   * trailing run, or empty text); every piece in between is non-empty.
   */
  function SplitRuns(s: string): (r: seq<string>)
    ensures |r| >= 1
    ensures forall k :: 0 <= k < |r| ==> '\n' !in r[k] && ',' !in r[k]
    ensures forall k :: 0 < k < |r| - 1 ==> r[k] != []
    ensures s != [] && !IsSeparator(s[0]) ==> r[0] != []
    decreases |s|
  {
    var k := SepIndex(s);
    SepIndexFirst(s);
    if k == |s| then
      assert forall c :: c in s ==> !IsSeparator(c);
      [s]
    else
      var piece := s[..k];
      assert forall c :: c in piece ==> !IsSeparator(c);
      [piece] + SplitRuns(SkipSeparators(s[k..]))
  }

  /** `xs.map(n => n.trim())`. */
  function TrimAll(xs: seq<string>): (r: seq<string>)
  {
    if xs == [] then [] else [Trim(xs[0])] + TrimAll(xs[1..])
  }

  /** `xs.filter(n => n !== '')`. */
  function DropEmpty(xs: seq<string>): (r: seq<string>)
  {
    if xs == [] then [] else (if xs[0] == [] then [] else [xs[0]]) + DropEmpty(xs[1..])
  }

  /** The names in `text`, as the Apply button and the file import compute them. */
  function Parse(text: string): seq<string>
  {
    DropEmpty(TrimAll(SplitRuns(text)))
  }

  /** What every parsed name looks like. */
  predicate ValidName(n: string) {
    n != [] && Trim(n) == n && '\n' !in n && ',' !in n
  }

  predicate SeparatorsOrWhitespace(s: string) {
    forall k :: 0 <= k < |s| ==> IsSeparator(s[k]) || IsWhitespace(s[k])
  }

  // --- lemmas about parsing ---------------------------------------------------

  lemma {:induction false} TrimAllConcat(a: seq<string>, b: seq<string>)
    ensures TrimAll(a + b) == TrimAll(a) + TrimAll(b)
  {
    if a != [] {
      assert (a + b)[1..] == a[1..] + b;
      TrimAllConcat(a[1..], b);
    } else {
      assert a + b == b;
    }
  }

  lemma {:induction false} DropEmptyConcat(a: seq<string>, b: seq<string>)
    ensures DropEmpty(a + b) == DropEmpty(a) + DropEmpty(b)
  {
    if a != [] {
      assert (a + b)[1..] == a[1..] + b;
      DropEmptyConcat(a[1..], b);
    } else {
      assert a + b == b;
    }
  }

  lemma CleanConcat(a: seq<string>, b: seq<string>)
    ensures DropEmpty(TrimAll(a + b)) == DropEmpty(TrimAll(a)) + DropEmpty(TrimAll(b))
  {
    TrimAllConcat(a, b);
    DropEmptyConcat(TrimAll(a), TrimAll(b));
  }

  /** Splitting at every single separator, a reference for `SplitRuns`. */
  function SplitEach(s: string): (r: seq<string>)
    decreases |s|
  {
    var k := SepIndex(s);
    if k == |s| then [s] else [s[..k]] + SplitEach(s[k + 1..])
  }

  /** Empty pieces left by leading separators vanish once pieces are cleaned. */
  lemma {:induction false} SplitEachSkip(t: string)
    ensures DropEmpty(TrimAll(SplitEach(t))) == DropEmpty(TrimAll(SplitEach(SkipSeparators(t))))
    decreases |t|
  {
    if t != [] && IsSeparator(t[0]) {
      assert SepIndex(t) == 0;
      assert SplitEach(t) == [[]] + SplitEach(t[1..]);
      CleanConcat([[]], SplitEach(t[1..]));
      assert DropEmpty(TrimAll([[]])) == [];
      SplitEachSkip(t[1..]);
    }
  }

  /** Once cleaned, splitting at runs and splitting at every separator agree. */
  lemma {:induction false} RunsAgreeWithEach(s: string)
    ensures DropEmpty(TrimAll(SplitRuns(s))) == DropEmpty(TrimAll(SplitEach(s)))
    decreases |s|
  {
    var k := SepIndex(s);
    SepIndexFirst(s);
    if k < |s| {
      var u := SkipSeparators(s[k..]);
      assert s[k..][1..] == s[k + 1..];
      assert u == SkipSeparators(s[k + 1..]);
      RunsAgreeWithEach(u);
      SplitEachSkip(s[k + 1..]);
      CleanConcat([s[..k]], SplitRuns(u));
      CleanConcat([s[..k]], SplitEach(s[k + 1..]));
    }
  }

  /** Appending text does not move a separator that is already there. */
  lemma {:induction false} SepIndexPrefix(a: string, t: string)
    requires SepIndex(a) < |a|
    ensures SepIndex(a + t) == SepIndex(a)
  {
    if !IsSeparator(a[0]) {
      assert (a + t)[1..] == a[1..] + t;
      SepIndexPrefix(a[1..], t);
    }
  }

  /** In separator-free text, the first separator is the one appended. */
  lemma {:induction false} SepIndexAppended(a: string, t: string)
    requires SepIndex(a) == |a| && t != [] && IsSeparator(t[0])
    ensures SepIndex(a + t) == |a|
  {
    if a != [] {
      assert (a + t)[1..] == a[1..] + t;
      SepIndexAppended(a[1..], t);
    }
  }

  /** Separator-free text followed by a separator is the first piece. */
  lemma SplitEachFirstPiece(a: string, t: string)
    requires SepIndex(a) == |a| && t != [] && IsSeparator(t[0])
    ensures SplitEach(a + t) == [a] + SplitEach(t[1..])
  {
    SepIndexAppended(a, t);
    assert (a + t)[..|a|] == a;
    assert (a + t)[|a| + 1..] == t[1..];
  }

  /** Text that holds a separator keeps its first piece when more text is appended. */
  lemma SplitEachKeepsPiece(a: string, t: string)
    requires SepIndex(a) < |a|
    ensures SplitEach(a + t) == [a[..SepIndex(a)]] + SplitEach(a[SepIndex(a) + 1..] + t)
  {
    var k := SepIndex(a);
    SepIndexPrefix(a, t);
    assert (a + t)[..k] == a[..k];
    assert (a + t)[k + 1..] == a[k + 1..] + t;
  }

  /** Splitting at every separator distributes over a separator in the middle. */
  lemma {:induction false} SplitEachConcat(a: string, t: string)
    requires t != [] && IsSeparator(t[0])
    ensures SplitEach(a + t) == SplitEach(a) + SplitEach(t[1..])
    decreases |a|
  {
    var k := SepIndex(a);
    if k == |a| {
      SplitEachFirstPiece(a, t);
    } else {
      SplitEachKeepsPiece(a, t);
      SplitEachConcat(a[k + 1..], t);
    }
  }

  /** Parsing distributes over a separator: `Parse(a + "," + b) == Parse(a) + Parse(b)`. */
  lemma ParseConcat(a: string, c: char, b: string)
    requires IsSeparator(c)
    ensures Parse(a + [c] + b) == Parse(a) + Parse(b)
  {
    var t := [c] + b;
    var s := a + [c] + b;
    assert s == a + t && t[1..] == b;
    SplitEachConcat(a, t);
    RunsAgreeWithEach(s);
    RunsAgreeWithEach(a);
    RunsAgreeWithEach(b);
    CleanConcat(SplitEach(a), SplitEach(b));
    assert Parse(s) == DropEmpty(TrimAll(SplitEach(a) + SplitEach(b)));
  }

  lemma {:induction false} CleanValid(xs: seq<string>)
    requires forall k :: 0 <= k < |xs| ==> '\n' !in xs[k] && ',' !in xs[k]
    ensures forall n :: n in DropEmpty(TrimAll(xs)) ==> ValidName(n)
  {
    if xs != [] {
      CleanValid(xs[1..]);
      TrimIdempotent(xs[0]);
      TrimChars(xs[0]);
      assert DropEmpty(TrimAll(xs)) ==
        (if Trim(xs[0]) == [] then [] else [Trim(xs[0])]) + DropEmpty(TrimAll(xs[1..]));
    }
  }

  /** Every parsed name is non-empty, trimmed, and free of `\n` and `,`. */
  lemma ParseValid(text: string)
    ensures forall n :: n in Parse(text) ==> ValidName(n)
  {
    CleanValid(SplitRuns(text));
  }

  /** A valid name parses to itself. */
  lemma ParseName(n: string)
    requires ValidName(n)
    ensures Parse(n) == [n]
  {
    forall j | 0 <= j < |n| ensures !IsSeparator(n[j]) {
      assert n[j] in n;
    }
    SepIndexNone(n);
    assert SplitRuns(n) == [n];
    assert TrimAll([n]) == [Trim(n)] + TrimAll([]);
    assert DropEmpty([n]) == [n] + DropEmpty([]);
  }

  /** Joining valid names with line breaks and parsing them back gives the names. */
  lemma {:induction false} ParseJoinRoundTrip(names: seq<string>)
    requires forall k :: 0 <= k < |names| ==> ValidName(names[k])
    ensures Parse(Join(names, "\n")) == names
  {
    if names == [] {
      assert Parse([]) == [];
    } else if |names| == 1 {
      ParseName(names[0]);
    } else {
      var rest := Join(names[1..], "\n");
      assert Join(names, "\n") == names[0] + ['\n'] + rest;
      ParseConcat(names[0], '\n', rest);
      ParseName(names[0]);
      ParseJoinRoundTrip(names[1..]);
    }
  }

  /** Separator-free text is separators-or-whitespace exactly when it is all whitespace. */
  lemma NoSeparatorsWhitespace(h: string)
    requires forall j :: 0 <= j < |h| ==> !IsSeparator(h[j])
    ensures SeparatorsOrWhitespace(h) <==> AllWhitespace(h)
  {
  }

  /** Around a separator, text is separators-or-whitespace exactly when both sides are. */
  lemma SeparatorsOrWhitespaceSplit(s: string, k: nat)
    requires k < |s| && IsSeparator(s[k])
    ensures SeparatorsOrWhitespace(s) <==>
              SeparatorsOrWhitespace(s[..k]) && SeparatorsOrWhitespace(s[k + 1..])
  {
    var head, tail := s[..k], s[k + 1..];
    if SeparatorsOrWhitespace(head) && SeparatorsOrWhitespace(tail) {
      forall j | 0 <= j < |s| ensures IsSeparator(s[j]) || IsWhitespace(s[j]) {
        if j < k {
          assert s[j] == head[j];
        } else if j > k {
          assert s[j] == tail[j - k - 1];
        }
      }
    }
  }

  lemma {:induction false} CleanEmptyIff(s: string)
    ensures DropEmpty(TrimAll(SplitEach(s))) == [] <==> SeparatorsOrWhitespace(s)
    decreases |s|
  {
    var k := SepIndex(s);
    SepIndexFirst(s);
    var head := s[..k];
    TrimEmptyIff(head);
    NoSeparatorsWhitespace(head);
    assert DropEmpty(TrimAll([head])) == [] <==> Trim(head) == [];
    if k == |s| {
      assert head == s;
    } else {
      var tail := s[k + 1..];
      CleanEmptyIff(tail);
      CleanConcat([head], SplitEach(tail));
      SeparatorsOrWhitespaceSplit(s, k);
    }
  }

  /** Text parses to no names exactly when it holds only separators and whitespace. */
  lemma ParseEmptyIff(text: string)
    ensures Parse(text) == [] <==> SeparatorsOrWhitespace(text)
  {
    RunsAgreeWithEach(text);
    CleanEmptyIff(text);
  }

  // ---------------------------------------------------------------------------
  // Removing repeated names: Array.from(new Set(names))
  // ---------------------------------------------------------------------------

  predicate Distinct<T(==)>(xs: seq<T>) {
    forall i, j :: 0 <= i < j < |xs| ==> xs[i] != xs[j]
  }

  /** The position of the first occurrence of `x` in `xs`. */
  function FirstIndex(xs: seq<string>, x: string): (k: nat)
    requires x in xs
    ensures k < |xs| && xs[k] == x && x !in xs[..k]
  {
    if xs[0] == x then 0
    else
      var k := 1 + FirstIndex(xs[1..], x);
      assert xs[..k] == [xs[0]] + xs[1..][..k - 1];
      k
  }

  /**
   * The distinct elements of `xs`. A Set iterates in insertion order, so
   * `Array.from(new Set(xs))` lists each element once, where it first occurs.
   */
  function Dedup(xs: seq<string>): (r: seq<string>)
    ensures forall x :: x in r <==> x in xs
    ensures Distinct(r)
    decreases |xs|
  {
    if xs == [] then []
    else
      var init, last := xs[..|xs| - 1], xs[|xs| - 1];
      assert xs == init + [last];
      var d := Dedup(init);
      if last in d then d else d + [last]
  }

  lemma FirstIndexPrefix(xs: seq<string>, ys: seq<string>, x: string)
    requires x in xs
    ensures FirstIndex(xs + ys, x) == FirstIndex(xs, x)
  {
    var k, k' := FirstIndex(xs, x), FirstIndex(xs + ys, x);
    assert (xs + ys)[..k] == xs[..k];
    assert (xs + ys)[k] == x;
  }

  /** Dedup keeps first occurrences in their original order. */
  lemma {:induction false} DedupFirstOccurrenceOrder(xs: seq<string>)
    ensures forall i, j :: 0 <= i < j < |Dedup(xs)| ==>
              FirstIndex(xs, Dedup(xs)[i]) < FirstIndex(xs, Dedup(xs)[j])
    decreases |xs|
  {
    if xs != [] {
      var init, last := xs[..|xs| - 1], xs[|xs| - 1];
      assert xs == init + [last];
      var d := Dedup(init);
      DedupFirstOccurrenceOrder(init);
      forall y | y in init ensures FirstIndex(xs, y) == FirstIndex(init, y) {
        FirstIndexPrefix(init, [last], y);
      }
      if last !in d {
        assert FirstIndex(xs, last) == |init|;
        var r := d + [last];
        assert Dedup(xs) == r;
        forall i, j | 0 <= i < j < |r| ensures FirstIndex(xs, r[i]) < FirstIndex(xs, r[j]) {
          assert r[i] == d[i] && d[i] in init;
          if j < |d| {
            assert r[j] == d[j] && d[j] in init;
          } else {
            assert r[j] == last;
          }
        }
      } else {
        assert Dedup(xs) == d;
        forall i, j | 0 <= i < j < |d| ensures FirstIndex(xs, d[i]) < FirstIndex(xs, d[j]) {
          assert d[i] in init && d[j] in init;
        }
      }
    }
  }

  /** A list without repeats is its own dedup. */
  lemma {:induction false} DedupOfDistinct(xs: seq<string>)
    requires Distinct(xs)
    ensures Dedup(xs) == xs
    decreases |xs|
  {
    if xs != [] {
      var init, last := xs[..|xs| - 1], xs[|xs| - 1];
      assert xs == init + [last];
      DedupOfDistinct(init);
      assert last !in init;
    }
  }

  /** Removing repeats twice is the same as removing them once. */
  lemma DedupIdempotent(xs: seq<string>)
    ensures Dedup(Dedup(xs)) == Dedup(xs)
  {
    DedupOfDistinct(Dedup(xs));
  }

  // ---------------------------------------------------------------------------
  // Counting names: the `duplicates` and `hasDuplicates` memos
  // ---------------------------------------------------------------------------

  /** `counts.get(x) || 0`. */
  function CountOf(counts: map<string, nat>, x: string): nat {
    if x in counts then counts[x] else 0
  }

  /** How often each name occurs: the map the counting loop builds. */
  function NameCounts(xs: seq<string>): (r: map<string, nat>)
    ensures forall x :: x in r <==> x in xs
    ensures forall x :: CountOf(r, x) == multiset(xs)[x]
  {
    map x | x in multiset(xs) :: multiset(xs)[x]
  }

  lemma NameCountsSnoc(xs: seq<string>, x: string)
    ensures NameCounts(xs + [x]) == NameCounts(xs)[x := CountOf(NameCounts(xs), x) + 1]
  {
    var a, b := NameCounts(xs + [x]), NameCounts(xs)[x := CountOf(NameCounts(xs), x) + 1];
    assert multiset(xs + [x]) == multiset(xs) + multiset{x};
    forall y ensures y in a <==> y in b {
      assert y in xs + [x] <==> y in xs || y == x;
    }
    forall y | y in a ensures a[y] == b[y] {
      assert CountOf(a, y) == a[y];
    }
  }

  /**
   * The `duplicates` memo: counts the participants by name, starting each
   * name at `counts.get(name) || 0`.
   */
  method Duplicates(participants: seq<Participant>) returns (counts: map<string, nat>)
    ensures counts == NameCounts(Names(participants))
  {
    counts := map[];
    var names := Names(participants);
    for i := 0 to |participants|
      invariant counts == NameCounts(names[..i])
    {
      var name := participants[i].name;
      ghost var seen := names[..i];
      assert names[..i + 1] == seen + [name];
      NameCountsSnoc(seen, name);
      counts := counts[name := CountOf(counts, name) + 1];
      assert counts == NameCounts(seen + [name]);
    }
    assert names[..|participants|] == names;
  }

  /** The `hasDuplicates` memo: some count is above one. */
  predicate HasDuplicates(counts: map<string, nat>) {
    exists x :: x in counts && counts[x] > 1
  }

  /** A name counted more than once occurs at two positions. */
  lemma CountedTwice(xs: seq<string>, x: string)
    requires multiset(xs)[x] > 1
    ensures !Distinct(xs)
  {
    assert x in multiset(xs);
    var i := FirstIndex(xs, x);
    assert xs == xs[..i] + [x] + xs[i + 1..];
    assert multiset(xs) == multiset(xs[..i]) + multiset{x} + multiset(xs[i + 1..]);
    assert x in xs[i + 1..];
    var j :| 0 <= j < |xs[i + 1..]| && xs[i + 1..][j] == x;
    assert xs[i] == xs[i + 1 + j];
  }

  /** A name at two positions is counted more than once. */
  lemma RepeatCounted(xs: seq<string>, i: nat, j: nat)
    requires i < j < |xs| && xs[i] == xs[j]
    ensures multiset(xs)[xs[i]] > 1
  {
    var x := xs[i];
    assert xs == xs[..j] + [x] + xs[j + 1..];
    assert xs[..j][i] == x;
    assert multiset(xs) == multiset(xs[..j]) + multiset{x} + multiset(xs[j + 1..]);
  }

  /** The repeated-names warning shows exactly when some name occurs twice. */
  lemma HasDuplicatesIff(xs: seq<string>)
    ensures HasDuplicates(NameCounts(xs)) <==> !Distinct(xs)
  {
    var counts := NameCounts(xs);
    if HasDuplicates(counts) {
      var x :| x in counts && counts[x] > 1;
      assert CountOf(counts, x) == counts[x];
      CountedTwice(xs, x);
    }
    if !Distinct(xs) {
      var i, j :| 0 <= i < j < |xs| && xs[i] == xs[j];
      RepeatCounted(xs, i, j);
      assert CountOf(counts, xs[i]) == counts[xs[i]] > 1;
    }
  }

  /** The sum of `counts[x]` over the names `keys`. */
  function SumCounts(keys: seq<string>, counts: map<string, nat>): nat {
    if keys == [] then 0 else CountOf(counts, keys[0]) + SumCounts(keys[1..], counts)
  }

  lemma {:induction false} SumCountsAppend(a: seq<string>, b: seq<string>, counts: map<string, nat>)
    ensures SumCounts(a + b, counts) == SumCounts(a, counts) + SumCounts(b, counts)
  {
    if a != [] {
      assert (a + b)[1..] == a[1..] + b;
      SumCountsAppend(a[1..], b, counts);
    } else {
      assert a + b == b;
    }
  }

  lemma {:induction false} SumCountsSnoc(keys: seq<string>, xs: seq<string>, x: string)
    requires Distinct(keys)
    ensures SumCounts(keys, NameCounts(xs + [x]))
         == SumCounts(keys, NameCounts(xs)) + (if x in keys then 1 else 0)
  {
    if keys != [] {
      assert multiset(xs + [x]) == multiset(xs) + multiset{x};
      assert CountOf(NameCounts(xs + [x]), keys[0])
          == CountOf(NameCounts(xs), keys[0]) + (if keys[0] == x then 1 else 0);
      SumCountsSnoc(keys[1..], xs, x);
      assert x in keys <==> x == keys[0] || x in keys[1..];
      assert keys[0] !in keys[1..];
    }
  }

  /**
   * The counts, taken over the names in the order the map holds them
   * (first occurrence, the order of `Dedup`), add up to the number of participants.
   */
  lemma {:induction false} NameCountsSum(xs: seq<string>)
    ensures SumCounts(Dedup(xs), NameCounts(xs)) == |xs|
    decreases |xs|
  {
    if xs != [] {
      var init, last := xs[..|xs| - 1], xs[|xs| - 1];
      assert xs == init + [last];
      var d := Dedup(init);
      NameCountsSum(init);
      SumCountsSnoc(d, init, last);
      if last !in d {
        SumCountsAppend(d, [last], NameCounts(xs));
        assert multiset(xs)[last] == multiset(init)[last] + 1;
        assert last !in init;
      }
    }
  }

  // ---------------------------------------------------------------------------
  // The editor's text state
  // ---------------------------------------------------------------------------

  /** Twenty sample names used by the "generate mock list" button. */
  const MockNames: seq<string> := [
    "王小明", "李美華", "陳大同", "張志豪", "林淑芬", "劉傑西", "黃靜宜", "周傑倫",
    "吳佩琪", "徐大為", "蔡依林", "許嘉宏", "何秀蘭", "鄭凱文", "蘇慧倫", "謝孟勳",
    "郭台銘", "曾國城", "彭于晏", "詹子賢"
  ]

  /** The sample list written to the text parses back to itself. */
  lemma MockNamesRoundTrip()
    ensures Parse(Join(MockNames, "\n")) == MockNames
  {
    forall k | 0 <= k < |MockNames| ensures ValidName(MockNames[k]) {
      TrimOfTrimmed(MockNames[k]);
    }
    ParseJoinRoundTrip(MockNames);
  }

  /** The text after importing `names`: appended on a new line unless the text was empty. */
  function AppendNames(prev: string, names: seq<string>): string {
    (if prev != [] then prev + "\n" else []) + Join(names, "\n")
  }

  /** Importing a file adds exactly the file's names after those already in the text. */
  lemma ImportParses(prev: string, content: string)
    ensures Parse(AppendNames(prev, Parse(content))) == Parse(prev) + Parse(content)
  {
    var names := Parse(content);
    ParseValid(content);
    ParseJoinRoundTrip(names);
    if prev != [] {
      assert "\n" == ['\n'];
      assert AppendNames(prev, names) == prev + ['\n'] + Join(names, "\n");
      ParseConcat(prev, '\n', Join(names, "\n"));
    } else {
      assert AppendNames(prev, names) == Join(names, "\n");
      ParseEmptyIff(prev);
    }
  }

  /** The textarea of the list editor and the buttons that change it. */
  class NameEditor {
    var inputText: string

    /** The editor opens with the current participants' names, one per line. */
    constructor (participants: seq<Participant>)
      ensures inputText == Join(Names(participants), "\n")
    {
      inputText := Join(Names(participants), "\n");
    }

    /** Typing in the textarea replaces the text. */
    method SetText(text: string)
      modifies this
      ensures inputText == text
    {
      inputText := text;
    }

    /** The Apply button: the names to commit are those parsed from the text. */
    method Apply() returns (names: seq<string>)
      ensures names == Parse(inputText)
      ensures forall n :: n in names ==> ValidName(n)
    {
      names := Parse(inputText);
      ParseValid(inputText);
    }

    /**
     * The remove-repeats button: each name once, in first-occurrence order,
     * written back one per line; the same names are committed.
     */
    method RemoveDuplicates(participants: seq<Participant>) returns (unique: seq<string>)
      modifies this
      ensures unique == Dedup(Names(participants))
      ensures inputText == Join(unique, "\n")
    {
      unique := Dedup(Names(participants));
      inputText := Join(unique, "\n");
    }

    /** A file was read: its names are appended to the text, which is not committed. */
    method ImportFile(content: string)
      modifies this
      ensures inputText == AppendNames(old(inputText), Parse(content))
    {
      inputText := AppendNames(inputText, Parse(content));
    }

    /** The clear button: empty text, and an empty list is committed. */
    method Clear() returns (names: seq<string>)
      modifies this
      ensures inputText == [] && names == []
    {
      inputText := [];
      names := [];
    }

    /** The mock-list button: the sample names, one per line, are also committed. */
    method GenerateMockData() returns (names: seq<string>)
      modifies this
      ensures names == MockNames && inputText == Join(MockNames, "\n")
    {
      inputText := Join(MockNames, "\n");
      names := MockNames;
    }
  }

  /** Reopening the editor and applying gives back the participants' names, when they are valid. */
  lemma ReseedRoundTrip(participants: seq<Participant>)
    requires forall k :: 0 <= k < |participants| ==> ValidName(participants[k].name)
    ensures Parse(Join(Names(participants), "\n")) == Names(participants)
  {
    ParseJoinRoundTrip(Names(participants));
  }

  /** After removing repeats, applying the text commits the same unique names. */
  lemma RemoveDuplicatesRoundTrip(participants: seq<Participant>)
    requires forall k :: 0 <= k < |participants| ==> ValidName(participants[k].name)
    ensures Parse(Join(Dedup(Names(participants)), "\n")) == Dedup(Names(participants))
    ensures Distinct(Dedup(Names(participants)))
  {
    var u := Dedup(Names(participants));
    forall k | 0 <= k < |u| ensures ValidName(u[k]) {
      assert u[k] in Names(participants);
    }
    ParseJoinRoundTrip(u);
  }
}
