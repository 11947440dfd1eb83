/**
 Reader tags (pcscid.go): the stable part of a reader name, and the message that is
 hashed into the tag. Tags are compared by the messages; the digest itself is not
 part of this model.
 */
module Tags {
  import opened Common
  import opened UnitRegistry

  // ---------------------------------------------------------------------------
  // The stable part of a reader name

  predicate Digit(c: char) {
    '0' <= c <= '9'
  }

  function LastIndex(s: string, c: char): (i: int)
    ensures -1 <= i < |s|
    ensures i >= 0 ==> s[i] == c
    ensures forall k :: i < k < |s| ==> s[k] != c
  {
    if s == [] then -1
    else if s[|s| - 1] == c then |s| - 1
    else LastIndex(s[..|s| - 1], c)
  }

  /** One or two decimal digits. */
  predicate HotplugIndex(s: string) {
    1 <= |s| <= 2 && forall i :: 0 <= i < |s| ==> Digit(s[i])
  }

  method IsHotplugIndex(s: string) returns (ok: bool)
    ensures ok <==> HotplugIndex(s)
  {
    if |s| == 0 || |s| > 2 {
      return false;
    }
    for i := 0 to |s|
      invariant forall k :: 0 <= k < i ==> Digit(s[k])
    {
      if s[i] < '0' || s[i] > '9' {
        return false;
      }
    }
    return true;
  }

  /** What pcscd appends: a space and one or two digits. */
  predicate IndexGroup(g: string) {
    2 <= |g| <= 3 && g[0] == ' ' && forall k :: 1 <= k < |g| ==> Digit(g[k])
  }

  ghost predicate EndsInGroup(s: string) {
    exists i :: 0 <= i < |s| && IndexGroup(s[i..])
  }

  /** The concatenation of index groups. */
  function Trail(groups: seq<string>): string {
    if groups == [] then "" else Trail(groups[..|groups| - 1]) + groups[|groups| - 1]
  }

  ghost predicate AllGroups(groups: seq<string>) {
    forall g :: g in groups ==> IndexGroup(g)
  }

  /** The name is the base with index groups appended. */
  ghost predicate Extends(s: string, base: string) {
    exists groups :: AllGroups(groups) && s == base + Trail(groups)
  }

  lemma OnlyTheLastSpaceStartsAGroup(s: string, i: nat)
    requires i < |s| && IndexGroup(s[i..])
    ensures i == LastIndex(s, ' ')
  {
    assert forall k :: i < k < |s| ==> s[k] == s[i..][k - i];
  }

  /** The name with its trailing index groups cut. */
  function Stable(s: string): string
    decreases |s|
  {
    var last := LastIndex(s, ' ');
    if last >= 0 && HotplugIndex(s[last + 1..]) then Stable(s[..last]) else s
  }

  lemma GroupAfterSpace(s: string, last: nat)
    requires last < |s| && s[last] == ' ' && HotplugIndex(s[last + 1..])
    ensures IndexGroup(s[last..])
  {
    assert forall k :: 1 <= k < |s[last..]| ==> s[last..][k] == s[last + 1..][k - 1];
  }

  lemma CutsOneGroup(s: string)
    ensures var last := LastIndex(s, ' ');
            (last >= 0 && HotplugIndex(s[last + 1..])) <==> EndsInGroup(s)
  {
    var last := LastIndex(s, ' ');
    if last >= 0 && HotplugIndex(s[last + 1..]) {
      GroupAfterSpace(s, last);
    }
    forall i | 0 <= i < |s| && IndexGroup(s[i..])
      ensures HotplugIndex(s[last + 1..])
    {
      OnlyTheLastSpaceStartsAGroup(s, i);
      var rest := s[i + 1..];
      assert forall k :: 0 <= k < |rest| ==> rest[k] == s[i..][k + 1];
    }
  }

  lemma StableStep(base: string, g: string)
    requires IndexGroup(g)
    ensures Stable(base + g) == Stable(base)
  {
    var s := base + g;
    assert s[|base|..] == g && s[..|base|] == base;
    OnlyTheLastSpaceStartsAGroup(s, |base|);
    CutsOneGroup(s);
  }

  lemma TrailSplits(base: string, groups: seq<string>)
    requires groups != []
    ensures base + Trail(groups) == base + Trail(groups[..|groups| - 1]) + groups[|groups| - 1]
  {
    Associate(base, Trail(groups[..|groups| - 1]), groups[|groups| - 1]);
  }

  lemma {:induction false} StableUnderTrail(base: string, groups: seq<string>)
    requires AllGroups(groups)
    ensures Stable(base + Trail(groups)) == Stable(base)
    decreases |groups|
  {
    if groups == [] {
      assert base + Trail([]) == base;
    } else {
      var n := |groups| - 1;
      assert groups[n] in groups;
      StableUnderTrail(base, groups[..n]);
      StableStep(base + Trail(groups[..n]), groups[n]);
      TrailSplits(base, groups);
    }
  }

  lemma ExtendsByOne(s: string, last: nat, base: string)
    requires last < |s| && IndexGroup(s[last..]) && Extends(s[..last], base)
    ensures Extends(s, base)
  {
    var groups :| AllGroups(groups) && s[..last] == base + Trail(groups);
    OneMoreGroup(base, groups, s, last);
  }

  lemma {:induction false} StableCutsGroups(s: string)
    ensures !EndsInGroup(Stable(s)) && Extends(s, Stable(s))
    decreases |s|
  {
    CutsOneGroup(s);
    var last := LastIndex(s, ' ');
    if last >= 0 && HotplugIndex(s[last + 1..]) {
      StableCutsGroups(s[..last]);
      GroupAfterSpace(s, last);
      ExtendsByOne(s, last, Stable(s));
    } else {
      assert s == s + Trail([]);
    }
  }

  lemma OneMoreGroup(base: string, groups: seq<string>, s: string, last: nat)
    requires AllGroups(groups) && last < |s| && s[..last] == base + Trail(groups)
    requires IndexGroup(s[last..])
    ensures Extends(s, base)
  {
    var more := groups + [s[last..]];
    assert more[..|more| - 1] == groups;
    assert s == s[..last] + s[last..];
    TrailSplits(base, more);
    assert AllGroups(more);
  }

  /** The stable part is the one text without a trailing index group that the name extends by index groups alone. */
  lemma StableIff(s: string, t: string)
    ensures Stable(s) == t <==> !EndsInGroup(t) && Extends(s, t)
  {
    StableCutsGroups(s);
    if !EndsInGroup(t) && Extends(s, t) {
      var groups :| AllGroups(groups) && s == t + Trail(groups);
      StableUnderTrail(t, groups);
      CutsOneGroup(t);
    }
  }

  /** A space and one or two decimal digits at the end do not change the stable part; nothing else is cut. */
  lemma IndexIsCutIff(name: string, word: string)
    requires ' ' !in word && word != ""
    ensures if |word| <= 2 && (forall c :: c in word ==> c in "0123456789") then Stable(name + " " + word) == Stable(name)
            else Stable(name + " " + word) == name + " " + word
  {
    var s := name + " " + word;
    assert s[|name|] == ' ' && s[|name| + 1..] == word && s[..|name|] == name;
    assert forall k :: |name| < k < |s| ==> s[k] == word[k - |name| - 1];
    assert forall k :: |name| < k < |s| ==> s[k] in word;
    assert LastIndex(s, ' ') == |name|;
    DigitsOf(word);
  }

  lemma DigitsOf(word: string)
    requires word != ""
    ensures HotplugIndex(word) <==> |word| <= 2 && forall c :: c in word ==> c in "0123456789"
  {
    assert forall c: char :: Digit(c) <==> c in "0123456789";
  }

  method NormalizeReaderName(name: string) returns (reader: string)
    ensures reader == Stable(name)
    ensures !EndsInGroup(reader) && Extends(name, reader)
  {
    reader := name;
    StableCutsGroups(name);
    while true
      invariant Stable(reader) == Stable(name)
      decreases |reader|
    {
      var last := LastIndex(reader, ' ');
      if last < 0 || last == |reader| - 1 {
        return;
      }
      var index := IsHotplugIndex(reader[last + 1..]);
      if !index {
        return;
      }
      reader := reader[..last];
    }
  }

  // ---------------------------------------------------------------------------
  // The message behind a tag

  /** The unit fact a tag rests on, in decreasing portability. */
  datatype Tier = Serial(serial: string) | Port(port: string) | Model

  function TierOf(serial: string, port: string): Tier {
    if serial != "" then Serial(serial) else if port != "" then Port(port) else Model
  }

  function UnitText(t: Tier): string {
    match t
    case Serial(s) => "serial:" + s
    case Port(p) => "port:" + p
    case Model => "model"
  }

  function Domain(t: Tier, machine: string): string {
    if machine != "" then "pcscid/reader/m1"
    else match t
      case Serial(_) => "pcscid/reader/v2"
      case Port(_) => "pcscid/reader/v3"
      case Model => "pcscid/reader/v1"
  }

  function Body(name: string, t: Tier, machine: string): string {
    if machine != "" then Join(name, Join(UnitText(t), machine))
    else match t
      case Serial(s) => Join(name, s)
      case Port(p) => Join(name, p)
      case Model => name
  }

  /** The hashed message of a stable name, a unit fact and a machine. */
  function Message(name: string, t: Tier, machine: string): string {
    Join(Domain(t, machine), Body(name, t, machine))
  }

  /** The hashed text in full, by what is known of the unit and whether a machine is mixed in. */
  lemma MessageInFull(name: string, serial: string, port: string, machine: string)
    ensures Message(name, TierOf(serial, port), machine) ==
            if machine != "" then
              "pcscid/reader/m1|" + name + "|"
              + (if serial != "" then "serial:" + serial else if port != "" then "port:" + port else "model") + "|" + machine
            else if serial != "" then "pcscid/reader/v2|" + name + "|" + serial
            else if port != "" then "pcscid/reader/v3|" + name + "|" + port
            else "pcscid/reader/v1|" + name
  {
    var t := TierOf(serial, port);
    var d := Domain(t, machine);
    assert Message(name, t, machine) == d + "|" + Body(name, t, machine);
    if machine != "" {
      InFull(d, name, UnitText(t) + "|" + machine);
      assert UnitText(t) + ("|" + machine) == UnitText(t) + "|" + machine;
      assert d + "|" == "pcscid/reader/m1|";
    } else if serial != "" {
      InFull(d, name, serial);
      assert d + "|" == "pcscid/reader/v2|";
    } else if port != "" {
      InFull(d, name, port);
      assert d + "|" == "pcscid/reader/v3|";
    } else {
      assert d + "|" == "pcscid/reader/v1|";
    }
  }

  lemma InFull(d: string, name: string, last: string)
    ensures d + "|" + (name + "|" + last) == d + "|" + name + "|" + last
  {}

  lemma UnitTextsTellTiersApart(t1: Tier, t2: Tier)
    ensures UnitText(t1) == UnitText(t2) <==> t1 == t2
  {
    if UnitText(t1) == UnitText(t2) {
      var text := UnitText(t1);
      assert UnitText(t1)[0] == UnitText(t2)[0];
      match t1
      case Serial(s) => assert s == text[7..] && t2.Serial? && t2.serial == text[7..];
      case Port(p) => assert p == text[5..] && t2.Port? && t2.port == text[5..];
      case Model =>
    }
  }

  lemma DomainsTellKindsApart(t1: Tier, m1: string, t2: Tier, m2: string)
    ensures '|' !in Domain(t1, m1)
    ensures Domain(t1, m1) == Domain(t2, m2)
      <==> if m1 != "" then m2 != "" else m2 == "" && (t1.Serial? <==> t2.Serial?) && (t1.Port? <==> t2.Port?)
  {
    assert Domain(t1, m1)[14] == 'm' <==> m1 != "";
    assert Domain(t2, m2)[14] == 'm' <==> m2 != "";
    assert Domain(t1, m1)[15] == '2' <==> m1 == "" && t1.Serial?;
    assert Domain(t2, m2)[15] == '2' <==> m2 == "" && t2.Serial?;
    assert Domain(t1, m1)[15] == '3' <==> m1 == "" && t1.Port?;
    assert Domain(t2, m2)[15] == '3' <==> m2 == "" && t2.Port?;
  }

  lemma SameDomainAndBody(n1: string, t1: Tier, m1: string, n2: string, t2: Tier, m2: string)
    ensures Message(n1, t1, m1) == Message(n2, t2, m2)
      <==> Domain(t1, m1) == Domain(t2, m2) && Body(n1, t1, m1) == Body(n2, t2, m2)
  {
    DomainsTellKindsApart(t1, m1, t2, m2);
    DomainsTellKindsApart(t2, m2, t1, m1);
    JoinsTellPairsApart(Domain(t1, m1), Body(n1, t1, m1), Domain(t2, m2), Body(n2, t2, m2));
  }

  // ---------------------------------------------------------------------------
  // What holds of all names and facts

  /** Readers of one model get distinct messages, one per unit fact, whatever the texts. */
  lemma SameModelKeepsUnitsApart(name: string, t1: Tier, t2: Tier, machine: string)
    ensures Message(name, t1, machine) == Message(name, t2, machine) <==> t1 == t2
  {
    SameDomainAndBody(name, t1, machine, name, t2, machine);
    DomainsTellKindsApart(t1, machine, t2, machine);
    if machine != "" {
      SameSecond(name, Join(UnitText(t1), machine), Join(UnitText(t2), machine));
      SameFirst(UnitText(t1), UnitText(t2), machine);
      UnitTextsTellTiersApart(t1, t2);
    } else if t1.Serial? && t2.Serial? {
      SameSecond(name, t1.serial, t2.serial);
    } else if t1.Port? && t2.Port? {
      SameSecond(name, t1.port, t2.port);
    }
  }

  /** The same reader and unit fact get distinct messages on distinct machines. */
  lemma SameUnitKeepsMachinesApart(name: string, t: Tier, m1: string, m2: string)
    ensures Message(name, t, m1) == Message(name, t, m2) <==> m1 == m2
  {
    SameDomainAndBody(name, t, m1, name, t, m2);
    DomainsTellKindsApart(t, m1, t, m2);
    SameSecond(name, Join(UnitText(t), m1), Join(UnitText(t), m2));
    SameSecond(UnitText(t), m1, m2);
  }

  lemma LastOfLabels(n1: string, n2: string)
    ensures n1 + "|serial:" != n2 + "|port:"
  {
    var a, b := n1 + "|serial:", n2 + "|port:";
    assert a[|a| - 2] == 'l' && b[|b| - 2] == 't';
  }

  lemma SameTextOtherLabel(n1: string, n2: string, text: string)
    ensures Join(n1, "serial:" + text) != Join(n2, "port:" + text)
  {
    var a, b := n1 + "|serial:", n2 + "|port:";
    assert Join(n1, "serial:" + text) == a + text && Join(n2, "port:" + text) == b + text;
    LastOfLabels(n1, n2);
    SameStart(a, b, text);
  }

  /** On one machine, or none, a serial never shares a message with a port of the same text. */
  lemma SerialNeverCollidesWithPort(n1: string, n2: string, text: string, machine: string)
    ensures Message(n1, Serial(text), machine) != Message(n2, Port(text), machine)
  {
    SameDomainAndBody(n1, Serial(text), machine, n2, Port(text), machine);
    DomainsTellKindsApart(Serial(text), machine, Port(text), machine);
    JoinAssociates(n1, "serial:" + text, machine);
    JoinAssociates(n2, "port:" + text, machine);
    SameFirst(Join(n1, "serial:" + text), Join(n2, "port:" + text), machine);
    SameTextOtherLabel(n1, n2, text);
  }

  // ---------------------------------------------------------------------------
  // Two models on one machine

  /** The second name goes on like the first name with a serial or a port. */
  predicate ShadowsUnit(a: string, b: string) {
    a + "|serial:" <= b || a + "|port:" <= b
  }

  /** Some unit facts give readers of the two names one message. */
  ghost predicate NamesMeet(n1: string, n2: string, machine: string) {
    exists s1, p1, s2, p2 :: Message(n1, TierOf(s1, p1), machine) == Message(n2, TierOf(s2, p2), machine)
  }

  /** The names, equal or not, keep their messages apart on the machine. */
  predicate NamesApart(n1: string, n2: string, machine: string) {
    n1 == n2
    || if machine == "" then !Shadows(n1, n2) && !Shadows(n2, n1) else !ShadowsUnit(n1, n2) && !ShadowsUnit(n2, n1)
  }

  lemma LabelPrefix(name: string, kind: string, text: string, longer: string)
    requires '|' !in kind && |name| < |longer|
    requires longer + "|" <= Join(name, kind + text)
    ensures name + "|" + kind <= longer
  {
    var all := Join(name, kind + text);
    assert all[|longer|] == '|';
    assert forall i :: 0 <= i < |kind| ==> all[|name| + 1 + i] == kind[i];
    assert |longer| > |name| + |kind| by {
      assert forall i :: |name| < i <= |name| + |kind| ==> all[i] == kind[i - |name| - 1];
    }
    assert name + "|" + kind == all[..|name| + 1 + |kind|];
    assert longer == all[..|longer|];
  }

  lemma ModelShadowsNothing(n1: string, n2: string, rest: string)
    requires Join(n1, "model") == Join(n2, rest)
    ensures |n2| <= |n1|
  {
    var text := Join(n1, "model");
    assert Join(n2, rest)[|n2|] == '|';
    assert forall i :: |n1| < i < |text| ==> text[i] == "model"[i - |n1| - 1];
  }

  lemma LabelStandsBetween(n1: string, kind: string, text: string, n2: string, rest: string)
    requires '|' !in kind && |n1| < |n2| && Join(n1, kind + text) == Join(n2, rest)
    ensures n1 + "|" + kind <= n2
  {
    var all := Join(n2, rest);
    assert n2 + "|" == all[..|n2| + 1];
    LabelPrefix(n1, kind, text, n2);
  }

  lemma ShorterNameShadows(n1: string, t1: Tier, n2: string, rest: string)
    requires Join(n1, UnitText(t1)) == Join(n2, rest) && |n1| < |n2|
    ensures ShadowsUnit(n1, n2)
  {
    match t1
    case Serial(s) => LabelStandsBetween(n1, "serial:", s, n2, rest);
    case Port(p) => LabelStandsBetween(n1, "port:", p, n2, rest);
    case Model => ModelShadowsNothing(n1, n2, rest);
  }

  /** Names that are apart share a message only when they and their unit facts agree. */
  lemma ApartNamesKeepUnitsApart(n1: string, t1: Tier, n2: string, t2: Tier, machine: string)
    requires NamesApart(n1, n2, machine)
    ensures Message(n1, t1, machine) == Message(n2, t2, machine) <==> n1 == n2 && t1 == t2
  {
    if n1 == n2 {
      SameModelKeepsUnitsApart(n1, t1, t2, machine);
    } else if Message(n1, t1, machine) == Message(n2, t2, machine) {
      SameDomainAndBody(n1, t1, machine, n2, t2, machine);
      DomainsTellKindsApart(t1, machine, t2, machine);
      if machine == "" {
        match t1
        case Serial(s) => JoinsPartOrShadow(n1, s, n2, t2.serial);
        case Port(p) => JoinsPartOrShadow(n1, p, n2, t2.port);
        case Model =>
      } else {
        JoinAssociates(n1, UnitText(t1), machine);
        JoinAssociates(n2, UnitText(t2), machine);
        SameFirst(Join(n1, UnitText(t1)), Join(n2, UnitText(t2)), machine);
        OneNameIsLonger(n1, UnitText(t1), n2, UnitText(t2));
        if |n1| < |n2| {
          ShorterNameShadows(n1, t1, n2, UnitText(t2));
        } else {
          ShorterNameShadows(n2, t2, n1, UnitText(t1));
        }
      }
    }
  }

  lemma OneNameIsLonger(n1: string, u1: string, n2: string, u2: string)
    requires n1 != n2 && Join(n1, u1) == Join(n2, u2)
    ensures |n1| != |n2|
  {
    assert n1 == Join(n1, u1)[..|n1|] && n2 == Join(n2, u2)[..|n2|];
  }

  lemma ShadowedNamesMeet(n1: string, n2: string)
    requires Shadows(n1, n2)
    ensures NamesMeet(n1, n2, "")
  {
    var s1 := ShadowsMeet(n1, n2);
    assert Message(n1, TierOf(s1, ""), "") == Message(n2, TierOf("x", ""), "");
  }

  lemma UnitShadowedNamesMeet(n1: string, n2: string, machine: string)
    requires ShadowsUnit(n1, n2) && machine != ""
    ensures NamesMeet(n1, n2, machine)
  {
    if n1 + "|serial:" <= n2 {
      var rest := n2[|n1| + 8..];
      assert n2 == n1 + "|serial:" + rest;
      var fact := rest + "|model";
      assert Join(n1, Join("serial:" + fact, machine)) == Join(n2, Join("model", machine));
      assert Message(n1, TierOf(fact, ""), machine) == Message(n2, TierOf("", ""), machine);
    } else {
      var rest := n2[|n1| + 6..];
      assert n2 == n1 + "|port:" + rest;
      var fact := rest + "|model";
      assert Join(n1, Join("port:" + fact, machine)) == Join(n2, Join("model", machine));
      assert Message(n1, TierOf("", fact), machine) == Message(n2, TierOf("", ""), machine);
    }
  }

  lemma NamesMeetEitherWay(n1: string, n2: string, machine: string)
    requires NamesMeet(n1, n2, machine)
    ensures NamesMeet(n2, n1, machine)
  {
    var s1, p1, s2, p2 :| Message(n1, TierOf(s1, p1), machine) == Message(n2, TierOf(s2, p2), machine);
    assert Message(n2, TierOf(s2, p2), machine) == Message(n1, TierOf(s1, p1), machine);
  }

  /**
   Two models can share a message on a machine, or on none, exactly when the longer name
   goes on after the shorter one with a separator and, on a machine, a unit label.
   */
  lemma ModelsMeetIff(n1: string, n2: string, machine: string)
    requires n1 != n2
    ensures NamesMeet(n1, n2, machine) <==> !NamesApart(n1, n2, machine)
  {
    if NamesApart(n1, n2, machine) {
      forall s1, p1, s2, p2
        ensures Message(n1, TierOf(s1, p1), machine) != Message(n2, TierOf(s2, p2), machine)
      {
        ApartNamesKeepUnitsApart(n1, TierOf(s1, p1), n2, TierOf(s2, p2), machine);
      }
    } else if machine == "" {
      if Shadows(n1, n2) {
        ShadowedNamesMeet(n1, n2);
      } else {
        ShadowedNamesMeet(n2, n1);
        NamesMeetEitherWay(n2, n1, machine);
      }
    } else if ShadowsUnit(n1, n2) {
      UnitShadowedNamesMeet(n1, n2, machine);
    } else {
      UnitShadowedNamesMeet(n2, n1, machine);
      NamesMeetEitherWay(n2, n1, machine);
    }
  }

  lemma SameTierNoMachine(n1: string, x: string, n2: string, y: string)
    ensures Message(n1, Serial(x), "") == Message(n2, Serial(y), "") <==> Join(n1, x) == Join(n2, y)
    ensures Message(n1, Port(x), "") == Message(n2, Port(y), "") <==> Join(n1, x) == Join(n2, y)
  {
    SameDomainAndBody(n1, Serial(x), "", n2, Serial(y), "");
    SameDomainAndBody(n1, Port(x), "", n2, Port(y), "");
  }

  /** Serials of two models can share a message exactly when one name shadows the other; so can ports. */
  lemma SerialsOfModelsMeetIff(n1: string, n2: string)
    requires n1 != n2
    ensures (exists s1, s2 :: s1 != "" && s2 != "" && Message(n1, Serial(s1), "") == Message(n2, Serial(s2), ""))
       <==> Shadows(n1, n2) || Shadows(n2, n1)
    ensures (exists p1, p2 :: p1 != "" && p2 != "" && Message(n1, Port(p1), "") == Message(n2, Port(p2), ""))
       <==> Shadows(n1, n2) || Shadows(n2, n1)
  {
    JoinsMeetIff(n1, n2);
    forall x, y
      ensures Message(n1, Serial(x), "") == Message(n2, Serial(y), "") <==> Join(n1, x) == Join(n2, y)
      ensures Message(n1, Port(x), "") == Message(n2, Port(y), "") <==> Join(n1, x) == Join(n2, y)
    {
      SameTierNoMachine(n1, x, n2, y);
    }
    if JoinsMeet(n1, n2) {
      var b1, b2 :| b1 != "" && b2 != "" && Join(n1, b1) == Join(n2, b2);
      assert Message(n1, Serial(b1), "") == Message(n2, Serial(b2), "");
      assert Message(n1, Port(b1), "") == Message(n2, Port(b2), "");
    }
  }

  // ---------------------------------------------------------------------------
  // Two machines

  /** Some two machines give the units one message. */
  ghost predicate UnitsMeet(n1: string, t1: Tier, n2: string, t2: Tier) {
    exists m1, m2 :: m1 != "" && m2 != "" && Message(n1, t1, m1) == Message(n2, t2, m2)
  }

  lemma SameOnTwoMachines(n1: string, t1: Tier, m1: string, n2: string, t2: Tier, m2: string)
    requires m1 != "" && m2 != ""
    ensures Message(n1, t1, m1) == Message(n2, t2, m2)
       <==> Join(Join(n1, UnitText(t1)), m1) == Join(Join(n2, UnitText(t2)), m2)
  {
    SameDomainAndBody(n1, t1, m1, n2, t2, m2);
    JoinAssociates(n1, UnitText(t1), m1);
    JoinAssociates(n2, UnitText(t2), m2);
  }

  /** Across machines two units can share a message exactly when name and fact are equal texts or one shadows the other. */
  lemma UnitsMeetAcrossMachinesIff(n1: string, t1: Tier, n2: string, t2: Tier)
    ensures var u1, u2 := Join(n1, UnitText(t1)), Join(n2, UnitText(t2));
            UnitsMeet(n1, t1, n2, t2) <==> u1 == u2 || Shadows(u1, u2) || Shadows(u2, u1)
  {
    var u1, u2 := Join(n1, UnitText(t1)), Join(n2, UnitText(t2));
    JoinsMeetIff(u1, u2);
    forall m1, m2 | m1 != "" && m2 != ""
      ensures Message(n1, t1, m1) == Message(n2, t2, m2) <==> Join(u1, m1) == Join(u2, m2)
    {
      SameOnTwoMachines(n1, t1, m1, n2, t2, m2);
    }
    if JoinsMeet(u1, u2) {
      var m1, m2 :| m1 != "" && m2 != "" && Join(u1, m1) == Join(u2, m2);
      assert Message(n1, t1, m1) == Message(n2, t2, m2);
    }
  }

  /** So a serial and a port of the same text do collide, on two machines, exactly for shadowing texts. */
  lemma SameTextCollidesAcrossMachinesIff(n1: string, n2: string, text: string)
    ensures var u1, u2 := Join(n1, "serial:" + text), Join(n2, "port:" + text);
            UnitsMeet(n1, Serial(text), n2, Port(text)) <==> Shadows(u1, u2) || Shadows(u2, u1)
  {
    UnitsMeetAcrossMachinesIff(n1, Serial(text), n2, Port(text));
    SameTextOtherLabel(n1, n2, text);
  }

  /** A serial and a port of the same text with one message, on two machines. */
  lemma SerialMeetsPort()
    ensures Message("A", Serial("Q"), "port:Q|M") == Message("A|serial:Q", Port("Q"), "M")
  {
    assert "A" + "|" + ("serial:" + "Q" + "|" + "port:Q|M") == "A|serial:Q|port:Q|M";
    assert "A|serial:Q" + "|" + ("port:" + "Q" + "|" + "M") == "A|serial:Q|port:Q|M";
  }

  /** Names that are apart and facts that do not shadow each other keep all machines apart. */
  lemma MachinesTellTagsApart(n1: string, t1: Tier, m1: string, n2: string, t2: Tier, m2: string)
    requires !Shadows(n1, n2) && !Shadows(n2, n1)
    requires !Shadows(UnitText(t1), UnitText(t2)) && !Shadows(UnitText(t2), UnitText(t1))
    ensures Message(n1, t1, m1) == Message(n2, t2, m2) <==> n1 == n2 && t1 == t2 && m1 == m2
  {
    SameDomainAndBody(n1, t1, m1, n2, t2, m2);
    DomainsTellKindsApart(t1, m1, t2, m2);
    if m1 != "" && m2 != "" && Message(n1, t1, m1) == Message(n2, t2, m2) {
      JoinsPartOrShadow(n1, Join(UnitText(t1), m1), n2, Join(UnitText(t2), m2));
      JoinsPartOrShadow(UnitText(t1), m1, UnitText(t2), m2);
      UnitTextsTellTiersApart(t1, t2);
    } else if m1 == "" && m2 == "" {
      ApartNamesKeepUnitsApart(n1, t1, n2, t2, "");
    }
  }

  lemma FirstCharacter(s1: string, m1: string, s2: string, m2: string)
    ensures Join("serial:" + s1, m1)[0] == 's' && Join("port:" + s2, m2)[0] == 'p'
  {}

  /** Of names that do not shadow each other a serial never meets a port, on any machines and whatever their texts. */
  lemma UnshadowedSerialNeverMeetsPort(n1: string, serial: string, m1: string, n2: string, port: string, m2: string)
    requires !Shadows(n1, n2) && !Shadows(n2, n1)
    ensures Message(n1, Serial(serial), m1) != Message(n2, Port(port), m2)
  {
    SameDomainAndBody(n1, Serial(serial), m1, n2, Port(port), m2);
    DomainsTellKindsApart(Serial(serial), m1, Port(port), m2);
    FirstCharacter(serial, m1, port, m2);
    if m1 != "" && m2 != "" && Body(n1, Serial(serial), m1) == Body(n2, Port(port), m2) {
      JoinsPartOrShadow(n1, Join("serial:" + serial, m1), n2, Join("port:" + port, m2));
      assert false;
    }
  }

  // ---------------------------------------------------------------------------
  // Readers

  /** The message of a reader with its unit facts on a machine. */
  function TagMessage(reader: string, f: Facts, machine: string): string {
    Message(Stable(reader), TierOf(f.serial, f.port), machine)
  }

  lemma ModelMessagesTellNamesApart(n1: string, n2: string, machine: string)
    ensures Message(n1, Model, machine) == Message(n2, Model, machine) <==> n1 == n2
  {
    SameDomainAndBody(n1, Model, machine, n2, Model, machine);
    if machine != "" {
      SameFirst(n1, n2, Join("model", machine));
    }
  }

  /** Readers that differ in their index groups alone share the model-level message, and only such readers do. */
  lemma ModelTagsIgnoreIndexGroups(r1: string, r2: string, machine: string)
    ensures TagMessage(r1, NO_FACTS, machine) == TagMessage(r2, NO_FACTS, machine)
      <==> exists base :: !EndsInGroup(base) && Extends(r1, base) && Extends(r2, base)
  {
    ModelMessagesTellNamesApart(Stable(r1), Stable(r2), machine);
    StableIff(r1, Stable(r1));
    StableIff(r2, Stable(r2));
    forall base | !EndsInGroup(base) && Extends(r1, base) && Extends(r2, base)
      ensures base == Stable(r1) == Stable(r2)
    {
      StableIff(r1, base);
      StableIff(r2, base);
    }
  }

  /** In every reachable registry two readers told apart by ports never share a tag message; readers of one model least of all. */
  lemma PortTagsAreExclusive(ops: seq<Op>, r1: string, r2: string, machine: string)
    requires r1 != r2 && NamesApart(Stable(r1), Stable(r2), machine)
    ensures var reg := Replay(EMPTY, ops);
            var f1, f2 := Cached(reg, r1), Cached(reg, r2);
            TagMessage(r1, f1, machine) == TagMessage(r2, f2, machine)
            ==> f1.serial == f2.serial && (f1.serial == "" ==> f1.port == "" && f2.port == "")
  {
    var reg := Replay(EMPTY, ops);
    var f1, f2 := Cached(reg, r1), Cached(reg, r2);
    EveryRunKeepsInverse(EMPTY, ops);
    PortsAreExclusive(reg, r1, r2);
    PortsAreExclusive(reg, r2, r1);
    ApartNamesKeepUnitsApart(Stable(r1), TierOf(f1.serial, f1.port), Stable(r2), TierOf(f2.serial, f2.port), machine);
  }
}
