/** Which words of `stat -f` output are values and under which keys, read off the words without parsing. */
module StatfsKeys {
  import opened Statfs

  const START := Going("", "", ZERO)

  function Concat(words: seq<string>): string {
    if words == [] then "" else Concat(words[..|words| - 1]) + words[|words| - 1]
  }

  /** A value follows a colon word and is none itself. */
  predicate ValueAt(words: seq<string>, i: nat) {
    0 < i < |words| && EndsInColon(words[i - 1]) && !EndsInColon(words[i])
  }

  /** A key starts at the first word, after a value, and at a colon word that follows another. */
  predicate KeyStarts(words: seq<string>, j: nat) {
    j < |words|
    && (j == 0 || ValueAt(words, j - 1) || (EndsInColon(words[j - 1]) && EndsInColon(words[j])))
  }

  /** `words[j..i]` is a key, or as much of it as comes before word `i`: only its last word may end in a colon. */
  predicate KeyFrom(words: seq<string>, j: nat, i: nat) {
    j < i <= |words| && KeyStarts(words, j) && forall k | j <= k < i - 1 :: !EndsInColon(words[k])
  }

  /** Word `i` is the value of a numeric key that starts at word `j`, and is no number. */
  predicate Misplaced(words: seq<string>, j: nat, i: nat) {
    KeyFrom(words, j, i) && ValueAt(words, i) && IsNumeric(TrimColon(Concat(words[j..i]))) && Atoi(words[i]).None?
  }

  /** Every numeric key has a number. */
  ghost predicate NumbersWhereDue(words: seq<string>) {
    forall j: nat, i: nat :: !Misplaced(words, j, i)
  }

  lemma KeyIsUnique(words: seq<string>, j: nat, k: nat, i: nat)
    requires KeyFrom(words, j, i) && KeyFrom(words, k, i)
    ensures j == k
  {
  }

  lemma {:induction false} KeyEndsLikeItsLastWord(words: seq<string>)
    requires words != [] && forall k | 0 <= k < |words| - 1 :: !EndsInColon(words[k])
    ensures EndsInColon(Concat(words)) == EndsInColon(words[|words| - 1])
    decreases |words|
  {
    var init, last := words[..|words| - 1], words[|words| - 1];
    if |words| > 1 {
      KeyEndsLikeItsLastWord(init);
    }
    assert last == "" ==> Concat(init) + last == Concat(init);
  }

  /** Where the scan stands before word `n`: at a fresh key after a value, in a key that started earlier,
      or stopped at the first misplaced word. */
  ghost predicate StandsAt(words: seq<string>, n: nat, st: Scan)
    requires n <= |words|
  {
    if st.Bad? then StopsFor(words, st.badKey, st.badValue)
    else
      && (forall j: nat, i: nat | i < n :: !Misplaced(words, j, i))
      && (if n == 0 || ValueAt(words, n - 1) then st.key == "" else HasKey(words, n, st.key))
  }

  ghost predicate HasKey(words: seq<string>, n: nat, key: string) {
    exists j: nat :: KeyFrom(words, j, n) && key == Concat(words[j..n])
  }

  /** `value` is the first misplaced word, and stands under `key`. */
  ghost predicate StopsFor(words: seq<string>, key: string, value: string) {
    exists j: nat, i: nat :: Misplaced(words, j, i) && key == TrimColon(Concat(words[j..i])) && value == words[i]
                   && forall m: nat, k: nat | Misplaced(words, m, k) :: i <= k
  }

  lemma KeyStartsAt(words: seq<string>, n: nat)
    requires n < |words| && (n == 0 || ValueAt(words, n - 1) || (EndsInColon(words[n - 1]) && EndsInColon(words[n])))
    ensures !ValueAt(words, n) && HasKey(words, n + 1, words[n])
  {
    assert words[n..n + 1] == [words[n]];
    assert Concat([words[n]]) == words[n] by {
      assert [words[n]][..0] == [] && "" + words[n] == words[n];
    }
    assert KeyFrom(words, n, n + 1);
  }

  lemma KeyGrows(words: seq<string>, j: nat, n: nat)
    requires n < |words| && KeyFrom(words, j, n) && !EndsInColon(words[n - 1])
    ensures !ValueAt(words, n) && HasKey(words, n + 1, Concat(words[j..n]) + words[n])
  {
    assert words[j..n + 1][..n - j] == words[j..n];
    assert Concat(words[j..n + 1]) == Concat(words[j..n]) + words[n];
    assert KeyFrom(words, j, n + 1);
  }

  lemma NoValueNoHarm(words: seq<string>, n: nat)
    requires !ValueAt(words, n) && forall j: nat, i: nat | i < n :: !Misplaced(words, j, i)
    ensures forall j: nat, i: nat | i < n + 1 :: !Misplaced(words, j, i)
  {
  }

  lemma KeyIsRead(words: seq<string>, n: nat, st: Scan, next: Scan)
    requires n < |words| && st.Going? && StandsAt(words, n, st)
    requires !ValueAt(words, n) && next.Going? && HasKey(words, n + 1, next.key)
    ensures StandsAt(words, n + 1, next)
  {
    NoValueNoHarm(words, n);
  }

  lemma StandsAfter(words: seq<string>, n: nat, st: Scan)
    requires n < |words| && st.Going? && StandsAt(words, n, st)
    ensures StandsAt(words, n + 1, Step(st, words[n]))
  {
    if n == 0 || ValueAt(words, n - 1) {
      hide HasKey, Misplaced, StopsFor;
      assert st.key + words[n] == words[n];
      KeyStartsAt(words, n);
      KeyIsRead(words, n, st, Step(st, words[n]));
    } else {
      var j: nat :| KeyFrom(words, j, n) && st.key == Concat(words[j..n]);
      StandsAfterKey(words, j, n, st);
    }
  }

  lemma StandsAfterKey(words: seq<string>, j: nat, n: nat, st: Scan)
    requires n < |words| && st.Going? && StandsAt(words, n, st)
    requires KeyFrom(words, j, n) && st.key == Concat(words[j..n])
    requires n > 0 && !ValueAt(words, n - 1)
    ensures StandsAt(words, n + 1, Step(st, words[n]))
  {
    hide HasKey, Misplaced, StopsFor, Concat, Atoi, IsNumeric, Assigned;
    KeyEndsLikeItsLastWord(words[j..n]);
    if !EndsInColon(words[n - 1]) {
      KeyGrows(words, j, n);
      KeyIsRead(words, n, st, Step(st, words[n]));
    } else if EndsInColon(words[n]) {
      KeyStartsAt(words, n);
      KeyIsRead(words, n, st, Step(st, words[n]));
    } else {
      ValueIsRead(words, j, n, st);
    }
  }

  lemma ValueIsRead(words: seq<string>, j: nat, n: nat, st: Scan)
    requires ValueAt(words, n) && KeyFrom(words, j, n) && st.Going? && st.key == Concat(words[j..n])
    requires EndsInColon(st.key) && forall m: nat, i: nat | i < n :: !Misplaced(words, m, i)
    ensures StandsAt(words, n + 1, Step(st, words[n]))
  {
    hide Atoi, IsNumeric, Assigned, Concat;
    forall m: nat | Misplaced(words, m, n) ensures m == j {
      KeyIsUnique(words, m, j, n);
    }
    if Misplaced(words, j, n) {
      assert forall m: nat, k: nat | Misplaced(words, m, k) :: n <= k;
      assert StopsFor(words, TrimColon(st.key), words[n]);
    }
  }

  lemma {:induction false} ScanAppends(st: Scan, a: seq<string>, b: seq<string>)
    ensures ScanWords(st, a + b) == ScanWords(ScanWords(st, a), b)
    decreases |a|
  {
    if a == [] {
      assert a + b == b;
    } else if st.Going? {
      assert (a + b)[1..] == a[1..] + b;
      ScanAppends(Step(st, a[0]), a[1..], b);
    }
  }

  lemma {:induction false} StandsAlong(words: seq<string>, n: nat)
    requires n <= |words|
    ensures StandsAt(words, n, ScanWords(START, words[..n]))
  {
    if n > 0 {
      hide StandsAt, Step, ValueAt;
      StandsAlong(words, n - 1);
      var st := ScanWords(START, words[..n - 1]);
      var w := words[n - 1];
      assert words[..n] == words[..n - 1] + [w];
      ScanAppends(START, words[..n - 1], [w]);
      if st.Going? {
        StandsAfter(words, n - 1, st);
        assert ScanWords(st, [w]) == Step(st, w) by { assert [w][1..] == []; }
      } else {
        StillStopped(words, n - 1, n, st);
      }
    }
  }

  lemma StillStopped(words: seq<string>, m: nat, n: nat, st: Scan)
    requires m <= n <= |words| && st.Bad? && StandsAt(words, m, st)
    ensures StandsAt(words, n, st)
  {
  }

  /** Whatever the output says, the parser accepts it exactly when every numeric key has a number; when it
      does not, it reports the first that has none. */
  lemma AcceptsExactly(words: seq<string>)
    ensures var r := Result(ScanWords(START, words));
            (r.Parsed? <==> NumbersWhereDue(words)) && (!r.Parsed? ==> r.Invalid? && StopsFor(words, r.key, r.value))
  {
    StandsAlong(words, |words|);
    assert words[..|words|] == words;
  }
}
