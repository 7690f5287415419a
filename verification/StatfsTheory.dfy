/** Printing a record in the documented layout and parsing it back. */
module StatfsTheory {
  import opened Bytes
  import opened Wrappers
  import opened Statfs
  import opened StatfsKeys

  /** Among the ASCII characters, blank, tab, the line ends and the two feeds between them are space. */
  lemma AsciiSpaces(c: char)
    requires c as int < 128
    ensures IsSpace(c) <==> c == ' ' || 9 <= c as int <= 13
  {
  }

  // ----- words survive any spacing -----

  predicate IsWord(w: string) {
    w != "" && forall c | c in w :: !IsSpace(c)
  }

  predicate IsGap(s: string) {
    forall c | c in s :: IsSpace(c)
  }

  /** Words with space around them: some between any two, any amount before and after. */
  function Spread(words: seq<string>, gaps: seq<string>): string
    requires |gaps| == |words| + 1
  {
    if words == [] then gaps[0] else gaps[0] + words[0] + Spread(words[1..], gaps[1..])
  }

  ghost predicate Separate(words: seq<string>, gaps: seq<string>) {
    && |gaps| == |words| + 1
    && (forall g | g in gaps :: IsGap(g))
    && (forall i | 0 < i < |words| :: gaps[i] != "")
  }

  lemma {:induction false} GapIsSkipped(gap: string, s: string)
    requires IsGap(gap)
    ensures Words(gap + s) == Words(s)
    decreases |gap|
  {
    if gap == "" {
      assert gap + s == s;
    } else {
      assert (gap + s)[1..] == gap[1..] + s;
      GapIsSkipped(gap[1..], s);
    }
  }

  lemma {:induction false} WordIsRead(w: string, s: string)
    requires IsWord(w) && (s != "" ==> IsSpace(s[0]))
    ensures Words(w + s) == [w] + Words(s)
  {
    assert WordLength(w + s) == |w|;
    assert (w + s)[..|w|] == w && (w + s)[|w|..] == s;
  }

  lemma {:induction false} SpreadStartsWithSpace(words: seq<string>, gaps: seq<string>)
    requires |gaps| == |words| + 1 && IsGap(gaps[0]) && (words != [] ==> gaps[0] != "")
    ensures Spread(words, gaps) != "" ==> IsSpace(Spread(words, gaps)[0])
  {
  }

  /** Scanning gives back the words, whatever the spacing. */
  lemma {:induction false} WordsOfSpread(words: seq<string>, gaps: seq<string>)
    requires Separate(words, gaps) && forall w | w in words :: IsWord(w)
    ensures Words(Spread(words, gaps)) == words
    decreases |words|
  {
    if words == [] {
      GapIsSkipped(gaps[0], "");
      assert gaps[0] + "" == gaps[0];
    } else {
      var rest := Spread(words[1..], gaps[1..]);
      assert gaps[0] + words[0] + rest == gaps[0] + (words[0] + rest);
      GapIsSkipped(gaps[0], words[0] + rest);
      SpreadStartsWithSpace(words[1..], gaps[1..]);
      WordIsRead(words[0], rest);
      WordsOfSpread(words[1..], gaps[1..]);
    }
  }

  // ----- numbers -----

  function Decimal(n: nat): (s: string)
    ensures s != "" && AllDigits(s)
    decreases n
  {
    if n < 10 then ["0123456789"[n]] else Decimal(n / 10) + ["0123456789"[n % 10]]
  }

  lemma {:induction false} DecimalValue(n: nat)
    ensures Value(Decimal(n)) == n
    decreases n
  {
    var s := Decimal(n);
    if n >= 10 {
      DecimalValue(n / 10);
      assert s[..|s| - 1] == Decimal(n / 10);
    } else {
      assert s[..|s| - 1] == "";
    }
  }

  /** A printed number reads back as itself, exactly when it fits an int64. */
  lemma AtoiDecimal(n: nat)
    ensures Atoi(Decimal(n)) == if n < TWO_63 then Some(n) else None
  {
    DecimalValue(n);
    var s := Decimal(n);
    assert '0' <= s[0] <= '9';
    hide Value, Decimal;
    assert s[0] != '+' && s[0] != '-';
  }

  /** A sign in front of it counts, and the smallest int64 is in range. */
  lemma AtoiSigned(n: nat)
    ensures var minus := -(n as int); Atoi("-" + Decimal(n)) == if n <= TWO_63 then Some(minus) else None
    ensures Atoi("+" + Decimal(n)) == Atoi(Decimal(n))
  {
    DecimalValue(n);
    AtoiDecimal(n);
    SignedDigits("-", Decimal(n));
    SignedDigits("+", Decimal(n));
    hide Value, Decimal, Atoi;
  }

  lemma SignedDigits(sign: string, s: string)
    requires (sign == "-" || sign == "+") && s != "" && AllDigits(s)
    ensures Atoi(sign + s) == var v := (if sign == "-" then -1 else 1) * Value(s); if FitsInt64(v) then Some(v) else None
  {
    assert (sign + s)[0] == sign[0] && (sign + s)[1..] == s;
    hide Value;
  }

  /** A number disturbs only the field of its key and scope, and totals count in the two known scopes alone. */
  lemma StrayNumbersAreIgnored(stat: Record, scope: string, key: string, n: int)
    ensures !IsNumeric(key) ==> Assigned(stat, scope, key, n) == stat
    ensures key == "Total" || key == "Free" || key == "Available" ==>
              var r := Assigned(stat, scope, key, n);
              && (scope != "Blocks" ==> r.blocks == stat.blocks && r.bfree == stat.bfree && r.bavail == stat.bavail)
              && (scope != "Inodes" ==> r.files == stat.files && r.ffree == stat.ffree)
              && r.nameLen == stat.nameLen && r.bsize == stat.bsize
  {
  }

  lemma DecimalIsWord(n: nat)
    ensures IsWord(Decimal(n)) && !EndsInColon(Decimal(n))
  {
    var s := Decimal(n);
    assert forall c | c in s :: '0' <= c <= '9';
  }

  // ----- the documented layout -----

  /** The words of the command's output: a quoted file name of any number of words, an id, a type, and
      the seven numbers. */
  function Layout(name: seq<string>, id: string, kind: string, r: Record): seq<string>
    requires NonNegative(r)
  {
    ["File:"] + name + (["ID:", id] + Numbers(kind, r))
  }

  function Numbers(kind: string, r: Record): seq<string>
    requires NonNegative(r)
  {
    ["Namelen:", Decimal(r.nameLen)] + (["Type:", kind] + (["Block", "size:", Decimal(r.bsize)] + Blocks(r)))
  }

  function Blocks(r: Record): seq<string>
    requires NonNegative(r)
  {
    ["Blocks:", "Total:", Decimal(r.blocks)] + (["Free:", Decimal(r.bfree)]
    + (["Available:", Decimal(r.bavail)] + Inodes(r)))
  }

  function Inodes(r: Record): seq<string>
    requires NonNegative(r)
  {
    ["Inodes:", "Total:", Decimal(r.files)] + (["Free:", Decimal(r.ffree)] + [])
  }

  predicate NonNegative(r: Record) {
    r.nameLen >= 0 && r.bsize >= 0 && r.blocks >= 0 && r.bfree >= 0 && r.bavail >= 0 && r.files >= 0 && r.ffree >= 0
  }

  /** The numbers that the fields and the number parser can hold. */
  predicate InRange(r: Record) {
    && 0 <= r.nameLen < TWO_32 && 0 <= r.bsize < TWO_32
    && 0 <= r.blocks < TWO_63 && 0 <= r.bfree < TWO_63 && 0 <= r.bavail < TWO_63
    && 0 <= r.files < TWO_63 && 0 <= r.ffree < TWO_63
  }

  lemma OneWord(st: Scan, w: string, rest: seq<string>)
    requires st.Going?
    ensures ScanWords(st, [w] + rest) == ScanWords(Step(st, w), rest)
  {
    assert ([w] + rest)[1..] == rest;
  }

  /** A key and its value, after whatever words have already joined the key. */
  lemma PairIsRead(st: Scan, key: string, value: string, rest: seq<string>)
    requires st.Going? && !EndsInColon(st.key) && EndsInColon(key) && !EndsInColon(value)
    ensures ScanWords(st, [key, value] + rest) ==
              ScanWords(Step(st.(key := st.key + key), value), rest)
  {
    hide ScanWords;
    var s1 := st.(key := st.key + key);
    OneWord(st, key, [value] + rest);
    OneWord(s1, value, rest);
    assert [key, value] + rest == [key] + ([value] + rest);
  }

  /** A scope, a key and its value. */
  lemma ScopedPairIsRead(st: Scan, scope: string, key: string, value: string, rest: seq<string>)
    requires st.Going? && st.key == "" && EndsInColon(scope) && EndsInColon(key) && !EndsInColon(value)
    ensures ScanWords(st, [scope, key, value] + rest) ==
              ScanWords(Step(Going(TrimColon(scope), key, st.stat), value), rest)
  {
    hide ScanWords, TrimColon;
    var s1 := st.(key := scope);
    assert Step(st, scope) == s1 by { assert st.key + scope == scope; }
    assert Step(s1, key) == Going(TrimColon(scope), key, st.stat);
    hide Step, EndsInColon;
    OneWord(st, scope, [key, value] + rest);
    OneWord(s1, key, [value] + rest);
    OneWord(Going(TrimColon(scope), key, st.stat), value, rest);
    assert [scope, key, value] + rest == [scope] + ([key, value] + rest);
    assert [key, value] + rest == [key] + ([value] + rest);
  }

  /** Where a scan stands after a number: on to the next key, or at an error. */
  function Numbered(scope: string, key: string, n: nat, stat: Record): Scan {
    if n < TWO_63 then Going(scope, "", Assigned(stat, scope, key, n)) else Bad(key, Decimal(n))
  }

  lemma NumberIsRead(scope: string, key: string, n: nat, stat: Record)
    requires IsNumeric(key)
    ensures Step(Going(scope, key + ":", stat), Decimal(n)) == Numbered(scope, key, n, stat)
  {
    AtoiDecimal(n);
    DecimalIsWord(n);
    assert TrimColon(key + ":") == key;
  }

  lemma NumberPair(scope: string, key: string, n: nat, stat: Record, rest: seq<string>)
    requires IsNumeric(key)
    ensures ScanWords(Going(scope, "", stat), [key + ":", Decimal(n)] + rest) ==
              ScanWords(Numbered(scope, key, n, stat), rest)
  {
    DecimalIsWord(n);
    PairIsRead(Going(scope, "", stat), key + ":", Decimal(n), rest);
    assert "" + (key + ":") == key + ":";
    NumberIsRead(scope, key, n, stat);
  }

  lemma ScopedNumberPair(before: string, scope: string, key: string, n: nat, stat: Record, rest: seq<string>)
    requires IsNumeric(key)
    ensures ScanWords(Going(before, "", stat), [scope + ":", key + ":", Decimal(n)] + rest) ==
              ScanWords(Numbered(scope, key, n, stat), rest)
  {
    DecimalIsWord(n);
    ScopedPairIsRead(Going(before, "", stat), scope + ":", key + ":", Decimal(n), rest);
    assert TrimColon(scope + ":") == scope;
    NumberIsRead(scope, key, n, stat);
  }

  /** A key that is no numeric one, in any number of words, and its value leave no trace. */
  lemma OtherPair(st: Scan, key: string, value: string, rest: seq<string>)
    requires st.Going? && !EndsInColon(st.key) && EndsInColon(key) && !EndsInColon(value)
    requires !IsNumeric(TrimColon(st.key + key))
    ensures ScanWords(st, [key, value] + rest) == ScanWords(st.(key := ""), rest)
  {
    hide ScanWords;
    PairIsRead(st, key, value, rest);
    var joined := st.(key := st.key + key);
    assert EndsInColon(joined.key);
    assert Step(joined, value) == st.(key := "");
  }

  lemma BlockSize(scope: string, n: nat, stat: Record, rest: seq<string>)
    ensures ScanWords(Going(scope, "", stat), ["Block", "size:", Decimal(n)] + rest) ==
              ScanWords(Numbered(scope, "Blocksize", n, stat), rest)
  {
    assert (["Block", "size:", Decimal(n)] + rest)[1..] == ["size:", Decimal(n)] + rest;
    assert "" + "Block" == "Block";
    DecimalIsWord(n);
    PairIsRead(Going(scope, "Block", stat), "size:", Decimal(n), rest);
    assert "Block" + "size:" == "Blocksize" + ":";
    NumberIsRead(scope, "Blocksize", n, stat);
  }

  lemma ScanEnds(st: Scan, words: seq<string>)
    requires st.Bad? || words == []
    ensures ScanWords(st, words) == st
  {
  }

  lemma InodesAreRead(before: string, stat: Record, r: Record)
    requires NonNegative(r)
    ensures var t := ScanWords(Going(before, "", stat), Inodes(r));
            if r.files < TWO_63 && r.ffree < TWO_63
            then t == Going("Inodes", "", stat.(files := r.files, ffree := r.ffree)) else t.Bad?
  {
    hide ScanWords, Decimal;
    var free := ["Free:", Decimal(r.ffree)] + [];
    var s1 := Numbered("Inodes", "Total", r.files, stat);
    assert "Inodes:" == "Inodes" + ":" && "Total:" == "Total" + ":" && "Free:" == "Free" + ":";
    ScopedNumberPair(before, "Inodes", "Total", r.files, stat, free);
    if r.files >= TWO_63 {
      ScanEnds(s1, free);
    } else {
      NumberPair("Inodes", "Free", r.ffree, s1.stat, []);
      ScanEnds(Numbered("Inodes", "Free", r.ffree, s1.stat), []);
    }
  }

  lemma FreeBlocksAreRead(stat: Record, r: Record)
    requires NonNegative(r)
    ensures var t := ScanWords(Going("Blocks", "", stat), ["Free:", Decimal(r.bfree)] + (["Available:", Decimal(r.bavail)] + Inodes(r)));
            if r.bfree < TWO_63 && r.bavail < TWO_63 && r.files < TWO_63 && r.ffree < TWO_63
            then t == Going("Inodes", "", stat.(bfree := r.bfree, bavail := r.bavail, files := r.files, ffree := r.ffree))
            else t.Bad?
  {
    hide ScanWords, Decimal, Inodes;
    var available := ["Available:", Decimal(r.bavail)] + Inodes(r);
    var s1 := Numbered("Blocks", "Free", r.bfree, stat);
    assert "Available:" == "Available" + ":" && "Free:" == "Free" + ":";
    NumberPair("Blocks", "Free", r.bfree, stat, available);
    if r.bfree >= TWO_63 {
      ScanEnds(s1, available);
    } else {
      var s2 := Numbered("Blocks", "Available", r.bavail, s1.stat);
      NumberPair("Blocks", "Available", r.bavail, s1.stat, Inodes(r));
      if r.bavail >= TWO_63 {
        ScanEnds(s2, Inodes(r));
      } else {
        InodesAreRead("Blocks", s2.stat, r);
      }
    }
  }

  predicate BlocksFit(r: Record)
    requires NonNegative(r)
  {
    r.blocks < TWO_63 && r.bfree < TWO_63 && r.bavail < TWO_63 && r.files < TWO_63 && r.ffree < TWO_63
  }

  lemma BlocksAreRead(before: string, stat: Record, r: Record)
    requires NonNegative(r)
    ensures var t := ScanWords(Going(before, "", stat), Blocks(r));
            if BlocksFit(r) then t == Going("Inodes", "", r.(nameLen := stat.nameLen, bsize := stat.bsize)) else t.Bad?
  {
    hide ScanWords, Decimal, Inodes;
    var free := ["Free:", Decimal(r.bfree)] + (["Available:", Decimal(r.bavail)] + Inodes(r));
    var s1 := Numbered("Blocks", "Total", r.blocks, stat);
    assert "Blocks:" == "Blocks" + ":" && "Total:" == "Total" + ":";
    ScopedNumberPair(before, "Blocks", "Total", r.blocks, stat, free);
    if r.blocks >= TWO_63 {
      ScanEnds(s1, free);
    } else {
      FreeBlocksAreRead(s1.stat, r);
    }
  }

  /** Whatever has been read before, the seven numbers replace it, or one that does not fit ends the scan. */
  lemma NumbersAreRead(scope: string, stat: Record, kind: string, r: Record)
    requires NonNegative(r) && !EndsInColon(kind)
    ensures var t := ScanWords(Going(scope, "", stat), Numbers(kind, r));
            if r.nameLen < TWO_63 && r.bsize < TWO_63 && BlocksFit(r)
            then t == Going("Inodes", "", r.(nameLen := r.nameLen % TWO_32, bsize := r.bsize % TWO_32))
            else t.Bad?
  {
    hide ScanWords, Decimal, Blocks, BlocksFit;
    var size := ["Block", "size:", Decimal(r.bsize)] + Blocks(r);
    var kinds := ["Type:", kind] + size;
    var s1 := Numbered(scope, "Namelen", r.nameLen, stat);
    assert "Namelen:" == "Namelen" + ":" && TrimColon("" + "Type:") == "Type";
    NumberPair(scope, "Namelen", r.nameLen, stat, kinds);
    if r.nameLen >= TWO_63 {
      ScanEnds(s1, kinds);
    } else {
      OtherPair(s1, "Type:", kind, size);
      BlockSize(scope, r.bsize, s1.stat, Blocks(r));
      var s2 := Numbered(scope, "Blocksize", r.bsize, s1.stat);
      if r.bsize >= TWO_63 {
        ScanEnds(s2, Blocks(r));
      } else {
        BlocksAreRead(scope, s2.stat, r);
      }
    }
  }

  // ----- the file name -----

  /** A quoted name ends in its quote. */
  predicate Quoted(name: seq<string>) {
    name != [] && (forall w | w in name :: IsWord(w)) && !EndsInColon(name[|name| - 1])
  }

  /** After a quoted name the scan is between keys, or in one that the next key will complete. */
  lemma NameLeavesKeyOpen(st: Scan, name: seq<string>)
    requires st.Going? && Quoted(name) && ScanWords(st, name).Going?
    ensures !EndsInColon(ScanWords(st, name).key)
  {
    var init, last := name[..|name| - 1], name[|name| - 1];
    assert name == init + [last];
    ScanAppends(st, init, [last]);
    var before := ScanWords(st, init);
    assert [last][1..] == [];
    assert ScanWords(st, name) == Step(before, last);
    hide ScanWords, Atoi, IsNumeric, Assigned, TrimColon;
    assert last == "" ==> before.key + last == before.key;
  }

  /** In a name without colon words, with or without spaces, only the first word is a value, under `File`. */
  lemma PlainNamesAreHarmless(name: seq<string>)
    requires forall w | w in name :: !EndsInColon(w)
    ensures NumbersWhereDue(["File:"] + name)
  {
    var words := ["File:"] + name;
    forall k | 1 <= k < |words| ensures !EndsInColon(words[k]) {
      assert words[k] == name[k - 1];
    }
    forall j: nat, i: nat | ValueAt(words, i) && KeyFrom(words, j, i)
      ensures !IsNumeric(TrimColon(Concat(words[j..i])))
    {
      assert words[0..1] == ["File:"] && ["File:"][..0] == [];
      assert Concat(["File:"]) == "" + "File:" == "File:";
      assert TrimColon("File:") == "File";
    }
  }

  /** Parsing the output gives back the record, for any spacing and any quoted name, exactly when the
      numbers are in range and the name puts no other word where a numeric key wants a number. */
  lemma RoundTripExact(name: seq<string>, id: string, kind: string, r: Record, text: string)
    requires NonNegative(r) && Quoted(name) && !EndsInColon(id) && !EndsInColon(kind)
    requires Words(text) == Layout(name, id, kind, r)
    ensures Result(ScanWords(START, Words(text))) == Parsed(r) <==> NumbersWhereDue(["File:"] + name) && InRange(r)
  {
    hide Words, Decimal, Numbers, NumbersWhereDue;
    var tail := ["ID:", id] + Numbers(kind, r);
    var named := ScanWords(START, ["File:"] + name);
    AcceptsExactly(["File:"] + name);
    assert Words(text) == (["File:"] + name) + tail;
    ScanAppends(START, ["File:"] + name, tail);
    if named.Going? {
      assert (["File:"] + name)[1..] == name && "" + "File:" == "File:";
      TailIsRead(named, name, id, kind, r);
    }
  }

  lemma TailIsRead(named: Scan, name: seq<string>, id: string, kind: string, r: Record)
    requires NonNegative(r) && Quoted(name) && !EndsInColon(id) && !EndsInColon(kind)
    requires named.Going? && named == ScanWords(Going("", "File:", ZERO), name)
    ensures Result(ScanWords(named, ["ID:", id] + Numbers(kind, r))) == Parsed(r) <==> InRange(r)
  {
    hide Decimal, Numbers, ScanWords;
    NameLeavesKeyOpen(Going("", "File:", ZERO), name);
    var key := named.key + "ID:";
    assert TrimColon(key) == named.key + "ID" && TrimColon(key)[|named.key| + 1] == 'D';
    OtherPair(named, "ID:", id, Numbers(kind, r));
    NumbersAreRead(named.scope, named.stat, kind, r);
  }

  lemma BlocksAreWords(r: Record)
    requires NonNegative(r)
    ensures forall w | w in Blocks(r) :: IsWord(w)
  {
    hide Decimal, IsSpace;
    DecimalIsWord(r.blocks);
    DecimalIsWord(r.bfree);
    DecimalIsWord(r.bavail);
    DecimalIsWord(r.files);
    DecimalIsWord(r.ffree);
    KeysAreWords();
  }

  /** Printable ASCII characters are no space. */
  lemma VisibleIsWord(w: string)
    requires w != "" && forall i | 0 <= i < |w| :: '!' <= w[i] <= '~'
    ensures IsWord(w)
  {
  }

  lemma KeysAreWords()
    ensures forall w | w in ["File:", "ID:", "Namelen:", "Type:", "Block", "size:", "Blocks:", "Total:",
                             "Free:", "Available:", "Inodes:"] :: IsWord(w)
  {
    hide IsWord;
    VisibleIsWord("File:");
    VisibleIsWord("ID:");
    VisibleIsWord("Namelen:");
    VisibleIsWord("Type:");
    VisibleIsWord("Block");
    VisibleIsWord("size:");
    VisibleIsWord("Blocks:");
    VisibleIsWord("Total:");
    VisibleIsWord("Free:");
    VisibleIsWord("Available:");
    VisibleIsWord("Inodes:");
  }

  lemma LayoutIsWords(name: seq<string>, id: string, kind: string, r: Record)
    requires NonNegative(r) && IsWord(id) && IsWord(kind) && forall w | w in name :: IsWord(w)
    ensures forall w | w in Layout(name, id, kind, r) :: IsWord(w)
  {
    hide Decimal, Blocks, IsWord;
    DecimalIsWord(r.nameLen);
    DecimalIsWord(r.bsize);
    BlocksAreWords(r);
    KeysAreWords();
  }

  /** The documented promise: every in-range record survives printing and parsing, whatever the spacing,
      when no word of the quoted name ends in a colon. */
  lemma RoundTrip(name: seq<string>, id: string, kind: string, r: Record, gaps: seq<string>)
    requires InRange(r) && name != [] && IsWord(id) && IsWord(kind) && !EndsInColon(id) && !EndsInColon(kind)
    requires forall w | w in name :: IsWord(w) && !EndsInColon(w)
    requires Separate(Layout(name, id, kind, r), gaps)
    ensures Result(ScanWords(START, Words(Spread(Layout(name, id, kind, r), gaps)))) == Parsed(r)
  {
    hide Words, Spread, Decimal, Layout, ScanWords;
    LayoutIsWords(name, id, kind, r);
    WordsOfSpread(Layout(name, id, kind, r), gaps);
    PlainNamesAreHarmless(name);
    RoundTripExact(name, id, kind, r, Spread(Layout(name, id, kind, r), gaps));
  }

  /** A name with a word that ends in a colon can stop the parser: `"/x Free: y"`, in any output. */
  lemma ColonNameFails(id: string, kind: string, r: Record)
    requires NonNegative(r)
    ensures var name := ["\"/x", "Free:", "y\""];
            Quoted(name) && !NumbersWhereDue(["File:"] + name)
            && Result(ScanWords(START, Layout(name, id, kind, r))).Invalid?
  {
    var name := ["\"/x", "Free:", "y\""];
    var words := Layout(name, id, kind, r);
    assert words == (["File:"] + name) + (["ID:", id] + Numbers(kind, r));
    assert words[..4] == ["File:"] + name;
    hide *;
    FreeWantsANumber(["File:"] + name);
    FreeWantsANumber(words);
    AcceptsExactly(words);
    ColonNameIsQuoted();
  }

  lemma ColonNameIsQuoted()
    ensures Quoted(["\"/x", "Free:", "y\""])
  {
    hide IsWord;
    VisibleIsWord("\"/x");
    VisibleIsWord("Free:");
    VisibleIsWord("y\"");
  }

  lemma FreeWantsANumber(words: seq<string>)
    requires |words| >= 4 && words[..4] == ["File:", "\"/x", "Free:", "y\""]
    ensures !NumbersWhereDue(words)
  {
    assert words[0] == "File:" && words[1] == "\"/x" && words[2] == "Free:" && words[3] == "y\"";
    assert words[2..3] == ["Free:"] && ["Free:"][..0] == [];
    assert Concat(["Free:"]) == "" + "Free:" == "Free:";
    assert TrimColon("Free:") == "Free";
    assert Misplaced(words, 2, 3);
  }
}
