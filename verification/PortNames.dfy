/**
 Which reader names get a slot of their own (portIdentity in readerid.go), told in the
 characters of the name.
 */
module PortNames {
  import opened Common
  import opened PortScan

  // ---------------------------------------------------------------------------
  // Words of a name

  /** The white space of Unicode by code points. */
  lemma SpacesAre(c: char)
    ensures var x := c as int;
            IsSpace(c) <==> 0x09 <= x <= 0x0D || x == 0x20 || x == 0x85 || x == 0xA0 || x == 0x1680 || 0x2000 <= x <= 0x200A
                            || x == 0x2028 || x == 0x2029 || x == 0x202F || x == 0x205F || x == 0x3000
  {
    assert '\t' as int == 0x09 && '\r' as int == 0x0D && ' ' as int == 0x20;
  }

  predicate Blank(s: string) {
    forall c :: c in s ==> IsSpace(c)
  }

  /** A word: no space in it, and not empty. */
  predicate Word(s: string) {
    s != "" && forall c :: c in s ==> !IsSpace(c)
  }

  lemma {:induction false} WordLengthOfWord(w: string, t: string)
    requires (forall c :: c in w ==> !IsSpace(c)) && (t == "" || IsSpace(t[0]))
    ensures WordLength(w + t) == |w|
  {
    if w == "" {
      assert w + t == t;
    } else {
      WordLengthOfWord(w[1..], t);
      assert (w + t)[1..] == w[1..] + t;
    }
  }

  lemma {:induction false} WordLengthStaysWithin(s: string, t: string)
    requires t == "" || IsSpace(t[0])
    ensures WordLength(s + t) == WordLength(s)
  {
    if s == "" {
      assert s + t == t;
    } else {
      WordLengthStaysWithin(s[1..], t);
      assert (s + t)[1..] == s[1..] + t;
    }
  }

  lemma {:induction false} BlankHasNoFields(s: string)
    requires Blank(s)
    ensures Fields(s) == []
  {
    if s == "" {
    } else {
      BlankHasNoFields(s[1..]);
    }
  }

  lemma FirstWordGoes(s: string)
    requires s != "" && !IsSpace(s[0])
    ensures WordLength(s) > 0 && Fields(s) == [s[..WordLength(s)]] + Fields(s[WordLength(s)..])
  {}

  lemma CutWithin(s: string, t: string, n: nat)
    requires n <= |s|
    ensures (s + t)[..n] == s[..n] && (s + t)[n..] == s[n..] + t
  {}

  lemma FirstWordStays(s: string, t: string)
    requires s != "" && !IsSpace(s[0]) && (t == "" || IsSpace(t[0]))
    ensures var n := WordLength(s);
            n > 0 && Fields(s) == [s[..n]] + Fields(s[n..]) && Fields(s + t) == [s[..n]] + Fields(s[n..] + t)
  {
    var n := WordLength(s);
    WordLengthStaysWithin(s, t);
    FirstWordGoes(s);
    FirstWordGoes(s + t);
    CutWithin(s, t, n);
  }

  lemma LeadingSpaceGoes(s: string, t: string)
    requires s != "" && IsSpace(s[0])
    ensures Fields(s) == Fields(s[1..]) && Fields(s + t) == Fields(s[1..] + t)
  {
    assert (s + t)[1..] == s[1..] + t;
  }

  lemma JoinAfterWord(w: string, f: seq<string>, g: seq<string>)
    ensures [w] + (f + g) == [w] + f + g
  {}

  /** Fields of a text cut in front of a space. */
  lemma {:induction false} FieldsJoin(s: string, t: string)
    requires t == "" || IsSpace(t[0])
    ensures Fields(s + t) == Fields(s) + Fields(t)
    decreases |s|
  {
    if s == "" {
      assert s + t == t;
    } else if IsSpace(s[0]) {
      LeadingSpaceGoes(s, t);
      FieldsJoin(s[1..], t);
    } else {
      var n := WordLength(s);
      FirstWordStays(s, t);
      FieldsJoin(s[n..], t);
      JoinAfterWord(s[..n], Fields(s[n..]), Fields(t));
    }
  }

  lemma FieldsOfWord(w: string)
    requires Word(w)
    ensures Fields(w) == [w]
  {
    WordLengthOfWord(w, "");
    assert w + "" == w && w[|w|..] == "" && w[..|w|] == w;
    assert w[0] in w;
  }

  lemma {:induction false} FieldsAfterBlank(gap: string, w: string)
    requires Blank(gap)
    ensures Fields(gap + w) == Fields(w)
    decreases |gap|
  {
    if gap == "" {
      assert gap + w == w;
    } else {
      FieldsAfterBlank(gap[1..], w);
      assert (gap + w)[1..] == gap[1..] + w;
    }
  }

  /** A last word after at least one space. */
  lemma LastFieldOf(s: string, gap: string, w: string)
    requires Blank(gap) && gap != "" && Word(w)
    ensures Fields(s + gap + w) == Fields(s) + [w]
  {
    assert s + gap + w == s + (gap + w);
    assert (gap + w)[0] == gap[0] && gap[0] in gap;
    FieldsJoin(s, gap + w);
    FieldsAfterBlank(gap, w);
    FieldsOfWord(w);
  }

  lemma FieldsIgnoreEnd(s: string, end: string)
    requires Blank(end)
    ensures Fields(s + end) == Fields(s)
  {
    if end == "" {
      assert s + end == s;
    } else {
      assert end[0] in end;
      FieldsJoin(s, end);
      BlankHasNoFields(end);
    }
  }

  // ---------------------------------------------------------------------------
  // The slot of a name

  predicate HexDigit(c: char) {
    '0' <= c <= '9' || 'A' <= c <= 'F' || 'a' <= c <= 'f'
  }

  predicate HexPair(s: string) {
    |s| == 2 && HexDigit(s[0]) && HexDigit(s[1])
  }

  lemma HexPairIsGroup(s: string)
    ensures HexPair(s) <==> IsHexGroup(s)
    ensures HexPair(s) ==> Word(s)
  {
    if |s| == 2 {
      assert s == [s[0], s[1]];
      assert s[0] in s && s[1] in s;
    }
  }

  /** The lower-case letter of an upper-case hexadecimal one; other characters stay. */
  function LowerHex(c: char): char {
    if 'A' <= c <= 'F' then 'a' + (c - 'A') else c
  }

  lemma ExtraSlotOfLast(reader: string, fields: seq<string>, digit: string, slot: string)
    requires Fields(reader) == fields + [digit] + [slot]
    ensures ExtraSlot(reader)
         == if HexPair(digit) && HexPair(slot) && slot != "00" then [LowerHex(slot[0]), LowerHex(slot[1])] else ""
  {
    var all := fields + [digit] + [slot];
    assert all[|all| - 1] == slot && all[|all| - 2] == digit;
    HexPairIsGroup(digit);
    HexPairIsGroup(slot);
  }

  lemma FieldsOfTwoWords(name: string, gap1: string, digit: string, gap2: string, slot: string, end: string)
    requires Blank(gap1) && gap1 != "" && Word(digit) && Blank(gap2) && gap2 != "" && Word(slot) && Blank(end)
    ensures Fields(name + gap1 + digit + gap2 + slot + end) == Fields(name) + [digit] + [slot]
  {
    LastFieldOf(name, gap1, digit);
    LastFieldOf(name + gap1 + digit, gap2, slot);
    FieldsIgnoreEnd(name + gap1 + digit + gap2 + slot, end);
  }

  /**
   The port identity of a reader called by a name, an enumeration digit and a slot, both of
   two hexadecimal characters: the device path for slot 00, else with the slot appended in
   lower case. The digit decides nothing.
   */
  lemma PortOfHotplugName(name: string, digit: string, slot: string, devpath: string)
    requires HexPair(digit) && HexPair(slot)
    ensures PortIdentity(name + " " + digit + " " + slot, devpath)
         == if slot == "00" then devpath else devpath + "#" + [LowerHex(slot[0]), LowerHex(slot[1])]
  {
    var reader := name + " " + digit + " " + slot;
    HexPairIsGroup(digit);
    HexPairIsGroup(slot);
    FieldsOfTwoWords(name, " ", digit, " ", slot, "");
    assert reader + "" == reader;
    ExtraSlotOfLast(reader, Fields(name), digit, slot);
  }

  /** Two readers of one device share a port identity if and only if they are one slot, upper or lower case. */
  lemma SlotsOfOneDevice(n1: string, d1: string, s1: string, n2: string, d2: string, s2: string, devpath: string)
    requires HexPair(d1) && HexPair(s1) && HexPair(d2) && HexPair(s2)
    ensures PortIdentity(n1 + " " + d1 + " " + s1, devpath) == PortIdentity(n2 + " " + d2 + " " + s2, devpath)
       <==> LowerHex(s1[0]) == LowerHex(s2[0]) && LowerHex(s1[1]) == LowerHex(s2[1])
  {
    PortOfHotplugName(n1, d1, s1, devpath);
    PortOfHotplugName(n2, d2, s2, devpath);
    var p1 := PortIdentity(n1 + " " + d1 + " " + s1, devpath);
    var p2 := PortIdentity(n2 + " " + d2 + " " + s2, devpath);
    assert s1 == [s1[0], s1[1]] && s2 == [s2[0], s2[1]];
    if s1 != "00" {
      assert p1[|devpath| + 1] == LowerHex(s1[0]) && p1[|devpath| + 2] == LowerHex(s1[1]);
    }
    if s2 != "00" {
      assert p2[|devpath| + 1] == LowerHex(s2[0]) && p2[|devpath| + 2] == LowerHex(s2[1]);
    }
  }

  // ---------------------------------------------------------------------------
  // All other names

  /** The name ends in a digit and a slot beyond the first, set off by spaces. */
  ghost predicate NamesExtraSlot(reader: string) {
    exists name: string, gap1: string, digit: string, gap2: string, slot: string, end: string ::
      NamedSlot(reader, name, gap1, digit, gap2, slot, end)
  }

  predicate NamedSlot(reader: string, name: string, gap1: string, digit: string, gap2: string, slot: string, end: string) {
    && reader == name + gap1 + digit + gap2 + slot + end
    && Blank(gap1) && (name == "" || gap1 != "") && Blank(gap2) && gap2 != "" && Blank(end)
    && HexPair(digit) && HexPair(slot) && slot != "00"
  }

  /** The text before its last word, that word, and the spaces after it. */
  lemma {:induction false} SplitLast(s: string) returns (before: string, w: string, end: string)
    ensures s == before + w + end && Blank(end)
    ensures if w == "" then before == "" && Fields(s) == [] else
              Word(w) && (before == "" || IsSpace(before[|before| - 1])) && Fields(s) == Fields(before) + [w]
  {
    if s == "" {
      before, w, end := "", "", "";
    } else {
      var n := |s| - 1;
      var b, v, e := SplitLast(s[..n]);
      assert s == s[..n] + [s[n]];
      if IsSpace(s[n]) {
        before, w, end := b, v, e + [s[n]];
        FieldsIgnoreEnd(s[..n], [s[n]]);
      } else if e == "" && v != "" {
        before, w, end := b, v + [s[n]], "";
        FieldsAfterSpace(b, v + [s[n]]);
        assert s == before + w + "" && before + w == s;
      } else {
        before, w, end := s[..n], [s[n]], "";
        FieldsAfterSpace(before, w);
        assert before + w == s;
      }
    }
  }

  lemma FieldsAfterSpace(before: string, w: string)
    requires Word(w) && (before == "" || IsSpace(before[|before| - 1]))
    ensures Fields(before + w) == Fields(before) + [w]
  {
    if before == "" {
      assert before + w == w;
      FieldsOfWord(w);
    } else {
      var n := |before| - 1;
      var gap := [before[n]];
      assert before == before[..n] + gap;
      LastFieldOf(before[..n], gap, w);
      FieldsIgnoreEnd(before[..n], gap);
    }
  }

  /**
   A port identity differs from the device path if and only if the name ends in two
   groups of two hexadecimal characters, the last of them not 00: every other name, one
   group, none or longer ones, keeps the plain path.
   */
  lemma PlainPortIff(reader: string, devpath: string)
    ensures PortIdentity(reader, devpath) == devpath <==> !NamesExtraSlot(reader)
  {
    if NamesExtraSlot(reader) {
      var name, gap1, digit, gap2, slot, end :| NamedSlot(reader, name, gap1, digit, gap2, slot, end);
      NamedSlotIsQualified(reader, name, gap1, digit, gap2, slot, end);
    }
    if PortIdentity(reader, devpath) != devpath {
      QualifiedIsNamed(reader);
    }
  }

  lemma NamedSlotIsQualified(reader: string, name: string, gap1: string, digit: string, gap2: string, slot: string, end: string)
    requires NamedSlot(reader, name, gap1, digit, gap2, slot, end)
    ensures ExtraSlot(reader) != ""
  {
    HexPairIsGroup(digit);
    HexPairIsGroup(slot);
    if gap1 == "" {
      assert name + gap1 + digit == digit;
      FieldsOfWord(digit);
      LastFieldOf(digit, gap2, slot);
      FieldsIgnoreEnd(digit + gap2 + slot, end);
      ExtraSlotOfLast(reader, [], digit, slot);
    } else {
      FieldsOfTwoWords(name, gap1, digit, gap2, slot, end);
      ExtraSlotOfLast(reader, Fields(name), digit, slot);
    }
  }

  lemma GapBetweenWords(name: string, digit: string, gap: string)
    requires Word(digit) && IsSpace((name + digit + gap)[|name + digit + gap| - 1])
    ensures gap != ""
  {
    assert digit[|digit| - 1] in digit;
  }

  lemma NamedByParts(head: string, digit: string, gap: string, slot: string, end: string)
    requires head == "" || IsSpace(head[|head| - 1])
    requires Blank(gap) && gap != "" && Blank(end) && HexPair(digit) && HexPair(slot) && slot != "00"
    ensures NamesExtraSlot(head + digit + gap + slot + end)
  {
    var reader := head + digit + gap + slot + end;
    if head == "" {
      assert "" + "" + digit == digit && head + digit == digit;
      assert NamedSlot(reader, "", "", digit, gap, slot, end);
    } else {
      var n := |head| - 1;
      assert head[..n] + [head[n]] == head;
      assert NamedSlot(reader, head[..n], [head[n]], digit, gap, slot, end);
    }
  }

  lemma QualifiedHasTwoWords(reader: string)
    requires ExtraSlot(reader) != ""
    ensures |Fields(reader)| >= 2
  {}

  lemma QualifiedIsNamed(reader: string)
    requires ExtraSlot(reader) != ""
    ensures NamesExtraSlot(reader)
  {
    QualifiedHasTwoWords(reader);
    var before, slot, end := SplitLast(reader);
    var head, digit, gap := SplitLast(before);
    GapBetweenWords(head, digit, gap);
    ExtraSlotOfLast(reader, Fields(head), digit, slot);
    NamedByParts(head, digit, gap, slot, end);
    assert reader == head + digit + gap + slot + end;
  }
}
