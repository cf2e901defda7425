/** Object identifiers in dot notation, and the rendering of configured OID matchers into one list. */
module OidMatchers {
  import opened Prelude

  // ----- decimal integers, as strconv prints and parses them

  predicate IsDigit(c: char) {
    '0' <= c <= '9'
  }

  function DigitOf(n: int): char
    requires 0 <= n < 10
  {
    "0123456789"[n]
  }

  function DigitValue(c: char): int
    requires IsDigit(c)
  {
    c as int - '0' as int
  }

  predicate AllDigits(s: string) {
    forall k :: 0 <= k < |s| ==> IsDigit(s[k])
  }

  function Natural(s: string): (n: int)
    requires AllDigits(s)
    ensures n >= 0
  {
    if s == "" then 0 else Natural(s[..|s| - 1]) * 10 + DigitValue(s[|s| - 1])
  }

  function Digits(n: int): (s: string)
    requires n >= 0
    ensures s != "" && AllDigits(s)
  {
    if n < 10 then [DigitOf(n)] else Digits(n / 10) + [DigitOf(n % 10)]
  }

  function Itoa(n: int): string {
    if n < 0 then "-" + Digits(-n) else Digits(n)
  }

  /** strconv.Atoi: an optional sign, then digits only, within int64. */
  function Atoi(s: string): Result<int> {
    var signed := s != "" && (s[0] == '-' || s[0] == '+');
    var digits := if signed then s[1..] else s;
    if digits == "" || !AllDigits(digits) then Err("invalid syntax")
    else
      var n := if signed && s[0] == '-' then -Natural(digits) else Natural(digits);
      if InInt64(n) then Ok(n) else Err("value out of range")
  }

  function PowerOfTen(k: nat): int {
    if k == 0 then 1 else 10 * PowerOfTen(k - 1)
  }

  lemma TimesTen(a: int, power: int, b: int, digit: int)
    ensures (a * power + b) * 10 + digit == a * (10 * power) + (b * 10 + digit)
  {
  }

  /** Decimal notation: the digits of b count for as many places less. */
  lemma {:induction false} PlacesExactly(a: string, b: string)
    requires AllDigits(a) && AllDigits(b)
    ensures AllDigits(a + b) && Natural(a + b) == Natural(a) * PowerOfTen(|b|) + Natural(b)
    decreases |b|
  {
    if b == "" {
      assert a + b == a;
    } else {
      var front, last := b[..|b| - 1], b[|b| - 1];
      PlacesExactly(a, front);
      var both := a + b;
      assert both[..|both| - 1] == a + front && both[|both| - 1] == last;
      assert Natural(both) == Natural(a + front) * 10 + DigitValue(last);
      TimesTen(Natural(a), PowerOfTen(|front|), Natural(front), DigitValue(last));
    }
  }

  lemma DigitExactly(d: nat)
    requires d < 10
    ensures AllDigits(["0123456789"[d]]) && Natural(["0123456789"[d]]) == d
  {
    assert ["0123456789"[d]][..0] == "";
  }

  /** What a component may look like: digits after at most one sign, within int64. */
  lemma AtoiExactly(s: string, n: int)
    ensures Atoi(s) == Ok(n) <==>
            && -0x8000_0000_0000_0000 <= n <= 0x7FFF_FFFF_FFFF_FFFF
            && exists digits :: digits != "" && AllDigits(digits)
                                && (|| (s == digits && n == Natural(digits))
                                    || (s == "+" + digits && n == Natural(digits))
                                    || (s == "-" + digits && n == -Natural(digits)))
  {
    var signed := s != "" && (s[0] == '-' || s[0] == '+');
    var digits := if signed then s[1..] else s;
    assert signed ==> s == [s[0]] + digits;
    if Atoi(s) == Ok(n) {
      assert digits != "" && AllDigits(digits);
    }
    forall text | text != "" && AllDigits(text) && (s == text || s == "+" + text || s == "-" + text)
      ensures text == digits && (s == text ==> !signed)
    {
      assert IsDigit(text[0]);
      assert ("+" + text)[1..] == text && ("-" + text)[1..] == text;
    }
  }

  lemma {:induction false} NaturalOfDigits(n: int)
    requires n >= 0
    ensures Natural(Digits(n)) == n
    decreases n
  {
    var s := Digits(n);
    if n >= 10 {
      NaturalOfDigits(n / 10);
      assert s[..|s| - 1] == Digits(n / 10);
    } else {
      assert s[..0] == "";
    }
  }

  lemma AtoiOfDigits(s: string)
    requires s != "" && AllDigits(s)
    ensures Atoi(s) == if InInt64(Natural(s)) then Ok(Natural(s)) else Err("value out of range")
    ensures Atoi("-" + s) == if InInt64(-Natural(s)) then Ok(-Natural(s)) else Err("value out of range")
  {
    assert IsDigit(s[0]);
    assert ("-" + s)[1..] == s;
  }

  lemma AtoiOfItoa(n: int)
    requires InInt64(n)
    ensures Atoi(Itoa(n)) == Ok(n)
  {
    var m := if n < 0 then -n else n;
    AtoiOfDigits(Digits(m));
    NaturalOfDigits(m);
  }

  lemma ItoaHasNoDot(n: int)
    ensures Itoa(n) != "" && '.' !in Itoa(n)
  {
    var m := if n < 0 then -n else n;
    assert forall k :: 0 <= k < |Digits(m)| ==> IsDigit(Digits(m)[k]);
  }

  // ----- dot notation

  /** The position of the first dot, or the length of the string. */
  function FirstDot(s: string): (k: nat)
    ensures k <= |s| && (k < |s| ==> s[k] == '.')
    ensures '.' !in s[..k]
  {
    if s == "" || s[0] == '.' then 0
    else
      var k := FirstDot(s[1..]);
      assert s[..k + 1] == [s[0]] + s[1..][..k];
      k + 1
  }

  /** strings.Split(s, "."). */
  function Split(s: string): (r: seq<string>)
    ensures r != []
    decreases |s|
  {
    var k := FirstDot(s);
    if k == |s| then [s] else [s[..k]] + Split(s[k + 1..])
  }

  function Join(parts: seq<string>): string
    requires parts != []
  {
    if |parts| == 1 then parts[0] else parts[0] + "." + Join(parts[1..])
  }

  /** asn1.ObjectIdentifier's String. */
  function Print(oid: seq<int>): string {
    if oid == [] then ""
    else if |oid| == 1 then Itoa(oid[0])
    else Itoa(oid[0]) + "." + Print(oid[1..])
  }

  predicate IsSpace(c: char) {
    c == ' ' || c == '\t' || c == '\n' || c == '\r' || c as int == 11 || c as int == 12 || c as int == 133 ||
        c as int == 160
  }

  /** strings.TrimSpace(node) == "". */
  predicate Blank(node: string) {
    forall k :: 0 <= k < |node| ==> IsSpace(node[k])
  }

  function ParseNodes(nodes: seq<string>): Option<seq<int>> {
    if nodes == [] then Some([])
    else match ParseNodes(nodes[..|nodes| - 1])
      case None => None
      case Some(oid) => match Atoi(nodes[|nodes| - 1])
        case Err(_) => None
        case Ok(n) => Some(oid + [n])
  }

  function ParseOid(oid: string): Option<seq<int>> {
    if oid == "" then None else ParseNodes(Split(oid))
  }

  lemma {:induction false} ParseNodesExactly(nodes: seq<string>)
    ensures ParseNodes(nodes).Some? <==> forall k :: 0 <= k < |nodes| ==> Atoi(nodes[k]).Ok?
    ensures ParseNodes(nodes).Some? ==>
              |ParseNodes(nodes).value| == |nodes|
              && forall k :: 0 <= k < |nodes| ==> Atoi(nodes[k]) == Ok(ParseNodes(nodes).value[k])
    decreases |nodes|
  {
    if nodes != [] {
      var front := nodes[..|nodes| - 1];
      ParseNodesExactly(front);
      assert forall k :: 0 <= k < |front| ==> front[k] == nodes[k];
    }
  }

  lemma ParseOidExactly(oid: string)
    ensures ParseOid(oid).Some? <==> oid != "" && forall k :: 0 <= k < |Split(oid)| ==> Atoi(Split(oid)[k]).Ok?
  {
    if oid != "" {
      assert ParseOid(oid) == ParseNodes(Split(oid));
      ParseNodesExactly(Split(oid));
    }
  }

  lemma NodeFails(nodes: seq<string>, k: nat)
    requires k < |nodes| && Atoi(nodes[k]).Err?
    ensures ParseNodes(nodes).None?
  {
    ParseNodesExactly(nodes);
  }

  lemma NodesParse(nodes: seq<string>, oid: seq<int>)
    requires |oid| == |nodes| && forall k :: 0 <= k < |nodes| ==> Atoi(nodes[k]) == Ok(oid[k])
    ensures ParseNodes(nodes) == Some(oid)
  {
    ParseNodesExactly(nodes);
    assert ParseNodes(nodes).value == oid;
  }

  method ParseObjectIdentifier(oid: string) returns (r: Result<seq<int>>)
    ensures r.Ok? <==> ParseOid(oid).Some?
    ensures r.Ok? ==> r.value == ParseOid(oid).value
    ensures r.Ok? <==> oid != "" && forall k :: 0 <= k < |Split(oid)| ==> Atoi(Split(oid)[k]).Ok?
    ensures r.Ok? ==>
              && |r.value| == |Split(oid)|
              && forall k :: 0 <= k < |r.value| ==> Atoi(Split(oid)[k]) == Ok(r.value[k])
  {
    ParseOidExactly(oid);
    if |oid| == 0 {
      return Err("empty input");
    }
    var nodes := Split(oid);
    var objectIdentifier := new int[|nodes|];
    for i := 0 to |nodes|
      invariant forall k :: 0 <= k < i ==> Atoi(nodes[k]) == Ok(objectIdentifier[k])
    {
      if Blank(nodes[i]) {
        BlankDoesNotParse(nodes[i]);
        NodeFails(nodes, i);
        return Err("no characters between two dots");
      }
      var intNode := Atoi(nodes[i]);
      if intNode.Err? {
        NodeFails(nodes, i);
        return Err(intNode.message);
      }
      objectIdentifier[i] := intNode.value;
    }
    NodesParse(nodes, objectIdentifier[..]);
    return Ok(objectIdentifier[..]);
  }

  /** A component that is empty or all spaces makes the whole string unparseable. */
  lemma BlankComponentFails(oid: string, k: nat)
    requires k < |Split(oid)| && Blank(Split(oid)[k])
    ensures ParseOid(oid).None?
  {
    ParseNodesExactly(Split(oid));
    BlankDoesNotParse(Split(oid)[k]);
  }

  lemma BlankDoesNotParse(node: string)
    ensures Blank(node) ==> Atoi(node).Err?
  {
    if Blank(node) && node != "" {
      assert IsSpace(node[0]);
    }
  }

  lemma SplitFirst(a: string, b: string)
    requires '.' !in a
    ensures Split(a + "." + b) == [a] + Split(b)
    ensures Split(a) == [a]
  {
    var s := a + "." + b;
    FirstDotIs(s, |a|);
    assert s[..|a|] == a && s[|a| + 1..] == b;
    FirstDotIs(a, |a|);
  }

  lemma {:induction false} FirstDotIs(s: string, k: nat)
    requires k <= |s| && '.' !in s[..k] && (k < |s| ==> s[k] == '.')
    ensures FirstDot(s) == k
    decreases k
  {
    if k > 0 {
      assert s[0] == s[..k][0];
      assert s[1..][..k - 1] == s[..k][1..];
      FirstDotIs(s[1..], k - 1);
    }
  }

  /** A printed identifier is its components with single dots between them. */
  lemma {:induction false} PrintExactly(front: seq<int>, last: int)
    ensures Print([last]) == Itoa(last)
    ensures front != [] ==> Print(front + [last]) == Print(front) + "." + Itoa(last)
    decreases |front|
  {
    if front != [] {
      assert (front + [last])[1..] == front[1..] + [last];
      PrintExactly(front[1..], last);
      assert |front| == 1 ==> front[1..] + [last] == [last];
    }
  }

  function Components(oid: seq<int>): seq<string> {
    seq(|oid|, k requires 0 <= k < |oid| => Itoa(oid[k]))
  }

  lemma ComponentsCons(oid: seq<int>)
    requires oid != []
    ensures Components(oid) == [Itoa(oid[0])] + Components(oid[1..])
  {
  }

  lemma {:induction false} SplitOfPrint(oid: seq<int>)
    requires oid != []
    ensures Split(Print(oid)) == Components(oid) && Print(oid) != ""
    decreases |oid|
  {
    ItoaHasNoDot(oid[0]);
    ComponentsCons(oid);
    if |oid| == 1 {
      SplitFirst(Itoa(oid[0]), "");
    } else {
      SplitOfPrint(oid[1..]);
      SplitFirst(Itoa(oid[0]), Print(oid[1..]));
    }
  }

  /** Parsing the dotted form of any non-empty identifier with int64 components returns it. */
  lemma ParseOfPrint(oid: seq<int>)
    requires oid != [] && forall k :: 0 <= k < |oid| ==> InInt64(oid[k])
    ensures ParseOid(Print(oid)) == Some(oid)
  {
    SplitOfPrint(oid);
    ParseNodesExactly(Components(oid));
    forall k | 0 <= k < |oid|
      ensures Atoi(Components(oid)[k]) == Ok(oid[k])
    {
      AtoiOfItoa(oid[k]);
    }
    assert ParseOid(Print(oid)).value == oid;
  }

  // ----- which strings are the dotted form of what they parse to

  /** No plus sign, no leading zero, no negative zero. */
  predicate Canonical(component: string) {
    var digits := if component != "" && component[0] == '-' then component[1..] else component;
    digits != "" && AllDigits(digits) && (digits[0] != '0' || component == "0")
  }

  lemma {:induction false} DigitsStart(n: int)
    requires n >= 0
    ensures Digits(n)[0] == '0' <==> n == 0
    ensures n == 0 ==> Digits(n) == "0"
    decreases n
  {
    if n >= 10 {
      DigitsStart(n / 10);
    }
  }

  lemma {:induction false} DigitsOfNatural(s: string)
    requires s != "" && AllDigits(s)
    ensures s[0] != '0' ==> Natural(s) > 0
    ensures Digits(Natural(s)) == s <==> s[0] != '0' || s == "0"
    decreases |s|
  {
    DigitsStart(Natural(s));
    var front := s[..|s| - 1];
    if front == "" {
      assert Natural(s) == DigitValue(s[0]);
    } else {
      DigitsOfNatural(front);
      assert front[0] == s[0];
      if s[0] != '0' {
        assert Natural(s) / 10 == Natural(front) && Natural(s) % 10 == DigitValue(s[|s| - 1]);
        assert s == front + [s[|s| - 1]];
      }
    }
  }

  lemma ItoaOfAtoi(s: string)
    requires Atoi(s).Ok?
    ensures Itoa(Atoi(s).value) == s <==> Canonical(s)
  {
    var signed := s[0] == '-' || s[0] == '+';
    var digits := if signed then s[1..] else s;
    DigitsOfNatural(digits);
    DigitsStart(Natural(digits));
    if signed && Natural(digits) > 0 {
      assert Itoa(-Natural(digits))[1..] == Digits(Natural(digits));
      assert s == [s[0]] + digits;
    }
  }

  lemma JoinCons(part: string, parts: seq<string>)
    requires parts != []
    ensures Join([part] + parts) == part + "." + Join(parts)
  {
    assert ([part] + parts)[1..] == parts;
  }

  lemma CutAt(s: string, k: nat)
    requires k < |s| && s[k] == '.'
    ensures s == s[..k] + "." + s[k + 1..]
  {
  }

  /** The components are what stands between the dots. */
  lemma {:induction false} JoinOfSplit(s: string)
    ensures Join(Split(s)) == s
    decreases |s|
  {
    var k := FirstDot(s);
    if k < |s| {
      CutAt(s, k);
      JoinOfSplit(s[k + 1..]);
      JoinCons(s[..k], Split(s[k + 1..]));
    } else {
      assert Split(s) == [s];
    }
  }

  lemma {:induction false} ComponentsHaveNoDots(s: string)
    ensures forall part :: part in Split(s) ==> '.' !in part
    decreases |s|
  {
    var k := FirstDot(s);
    if k < |s| {
      ComponentsHaveNoDots(s[k + 1..]);
    } else {
      assert s[..k] == s;
    }
  }

  predicate AllCanonical(oid: string) {
    forall k :: 0 <= k < |Split(oid)| ==> Canonical(Split(oid)[k])
  }

  /** Printing what a string parses to gives the string back if and only if all its components are canonical. */
  lemma PrintOfParse(s: string)
    requires ParseOid(s).Some?
    ensures Print(ParseOid(s).value) == s <==> AllCanonical(s)
  {
    var oid, nodes := ParseOid(s).value, Split(s);
    ParseNodesExactly(nodes);
    SplitOfPrint(oid);
    forall k | 0 <= k < |nodes|
      ensures Components(oid)[k] == nodes[k] <==> Canonical(nodes[k])
    {
      ItoaOfAtoi(nodes[k]);
    }
    if AllCanonical(s) {
      assert Components(oid) == nodes;
      JoinOfSplit(s);
      JoinOfSplit(Print(oid));
    }
  }

  lemma ParsedIsPrintable(s: string)
    requires ParseOid(s).Some?
    ensures ParseOid(Print(ParseOid(s).value)) == ParseOid(s)
  {
    ParseNodesExactly(Split(s));
    ParseOfPrint(ParseOid(s).value);
  }

  /** A string with a component that is not canonical has a twin: another string for the same identifier. Two
      canonical strings never name one. */
  lemma TwinExactly(s: string)
    requires ParseOid(s).Some?
    ensures AllCanonical(s) <==>
            forall twin :: AllCanonical(twin) && ParseOid(twin) == ParseOid(s) ==> twin == s
  {
    var printed := Print(ParseOid(s).value);
    ParsedIsPrintable(s);
    PrintOfParse(printed);
    PrintOfParse(s);
    forall twin | AllCanonical(twin) && ParseOid(twin) == ParseOid(s)
      ensures twin == printed
    {
      PrintOfParse(twin);
    }
  }

  /** A custom key with a leading zero beside the printed identifier: two keys, one identifier. */
  lemma TwoKeysOneOid()
    ensures ParseOid("01") == ParseOid("1") == Some([1])
  {
    assert "01"[..1] == "0" && "0"[..0] == "" && "1"[..0] == "";
    assert Natural("0") == 0 && Natural("01") == 1 && Natural("1") == 1;
    OneComponent("01");
    OneComponent("1");
  }

  lemma OneComponent(s: string)
    requires s != "" && AllDigits(s) && InInt64(Natural(s))
    ensures ParseOid(s) == Some([Natural(s)])
  {
    SplitFirst(s, "");
    AtoiOfDigits(s);
    NodesParse([s], [Natural(s)]);
    assert ParseOid(s) == ParseNodes(Split(s));
  }

  // ----- rendering

  /** A configured matcher under its key: the printed identifier, or a custom extension's own string. */
  datatype Keyed = Keyed(key: string, values: seq<string>)

  datatype Matcher = Matcher(id: seq<int>, values: seq<string>)

  function ToSet(values: seq<string>): set<string> {
    set v | v in values
  }

  /** The map after all matchers were entered in order: each one resets its key. */
  function LastValues(all: seq<Keyed>): map<string, set<string>> {
    if all == [] then map[]
    else LastValues(all[..|all| - 1])[all[|all| - 1].key := ToSet(all[|all| - 1].values)]
  }

  function PrintKeys(matchers: seq<Matcher>): seq<Keyed> {
    seq(|matchers|, k requires 0 <= k < |matchers| => Keyed(Print(matchers[k].id), matchers[k].values))
  }

  ghost predicate NoDuplicates(values: seq<string>) {
    forall i, j :: 0 <= i < j < |values| ==> values[i] != values[j]
  }

  lemma AppendFresh(list: seq<string>, v: string)
    ensures ToSet(list + [v]) == ToSet(list) + {v}
    ensures NoDuplicates(list) && v !in ToSet(list) ==> NoDuplicates(list + [v])
  {
    assert forall k :: 0 <= k < |list| ==> list[k] in ToSet(list);
  }

  /** One matcher for each of the keys, carrying the key's identifier and exactly its values in the map,
      without duplicates; `keys` tells which matcher is which key's. */
  ghost predicate Renders(matchers: seq<Matcher>, keys: seq<string>, oidMap: map<string, set<string>>) {
    && |keys| == |matchers| && NoDuplicates(keys)
    && forall k :: 0 <= k < |keys| ==>
         && keys[k] in oidMap
         && ParseOid(keys[k]) == Some(matchers[k].id)
         && NoDuplicates(matchers[k].values) && ToSet(matchers[k].values) == oidMap[keys[k]]
  }

  /** The matchers render exactly the keys entered. */
  ghost predicate IsRendering(matchers: seq<Matcher>, all: seq<Keyed>) {
    exists keys :: Renders(matchers, keys, LastValues(all)) && ToSet(keys) == LastValues(all).Keys
  }

  ghost predicate DistinctIds(matchers: seq<Matcher>) {
    forall i, j :: 0 <= i < j < |matchers| ==> matchers[i].id != matchers[j].id
  }

  /** No two of the keys name one identifier. */
  ghost predicate NoTwins(keys: set<string>) {
    forall a, b :: a in keys && b in keys && a != b ==> ParseOid(a) != ParseOid(b)
  }

  /** The rendered list has one matcher per identifier if and only if no two keys of the map parse alike. */
  lemma OneMatcherPerIdentifier(matchers: seq<Matcher>, all: seq<Keyed>)
    requires IsRendering(matchers, all)
    ensures DistinctIds(matchers) <==> NoTwins(LastValues(all).Keys)
  {
    var keys :| Renders(matchers, keys, LastValues(all)) && ToSet(keys) == LastValues(all).Keys;
    if NoTwins(LastValues(all).Keys) {
      NoTwinsIsEnough(matchers, keys, LastValues(all));
    }
    if DistinctIds(matchers) {
      NoTwinsIsNeeded(matchers, keys, LastValues(all));
    }
  }

  lemma NoTwinsIsEnough(matchers: seq<Matcher>, keys: seq<string>, oidMap: map<string, set<string>>)
    requires Renders(matchers, keys, oidMap) && NoTwins(oidMap.Keys)
    ensures DistinctIds(matchers)
  {
    forall i, j | 0 <= i < j < |matchers|
      ensures matchers[i].id != matchers[j].id
    {
      assert keys[i] in oidMap.Keys && keys[j] in oidMap.Keys && keys[i] != keys[j];
      assert ParseOid(keys[i]) != ParseOid(keys[j]);
    }
  }

  lemma KeyIsRendered(matchers: seq<Matcher>, keys: seq<string>, oidMap: map<string, set<string>>, key: string)
    returns (i: nat)
    requires Renders(matchers, keys, oidMap) && ToSet(keys) == oidMap.Keys && key in oidMap.Keys
    ensures i < |keys| == |matchers| && keys[i] == key && ParseOid(key) == Some(matchers[i].id)
  {
    assert key in ToSet(keys);
    i :| i < |keys| && keys[i] == key;
  }

  lemma NoTwinsIsNeeded(matchers: seq<Matcher>, keys: seq<string>, oidMap: map<string, set<string>>)
    requires Renders(matchers, keys, oidMap) && ToSet(keys) == oidMap.Keys && DistinctIds(matchers)
    ensures NoTwins(oidMap.Keys)
  {
    forall a, b | a in oidMap.Keys && b in oidMap.Keys && a != b
      ensures ParseOid(a) != ParseOid(b)
    {
      NotTwins(matchers, keys, oidMap, a, b);
    }
  }

  lemma NotTwins(matchers: seq<Matcher>, keys: seq<string>, oidMap: map<string, set<string>>, a: string, b: string)
    requires Renders(matchers, keys, oidMap) && ToSet(keys) == oidMap.Keys && DistinctIds(matchers)
    requires a in oidMap.Keys && b in oidMap.Keys && a != b
    ensures ParseOid(a) != ParseOid(b)
  {
    var i := KeyIsRendered(matchers, keys, oidMap, a);
    var j := KeyIsRendered(matchers, keys, oidMap, b);
    assert matchers[i].id != matchers[j].id;
  }

  /** So it has when every key is canonical, which printed identifiers always are. */
  lemma CanonicalKeysAreEnough(matchers: seq<Matcher>, all: seq<Keyed>)
    requires IsRendering(matchers, all) && forall key :: key in LastValues(all) ==> AllCanonical(key)
    ensures DistinctIds(matchers)
  {
    var keys :| Renders(matchers, keys, LastValues(all)) && ToSet(keys) == LastValues(all).Keys;
    forall a, b | a in LastValues(all).Keys && b in LastValues(all).Keys && a != b
      ensures ParseOid(a) != ParseOid(b)
    {
      var i :| 0 <= i < |keys| && keys[i] == a;
      assert ParseOid(keys[i]).Some?;
      TwinExactly(a);
    }
    assert NoTwins(LastValues(all).Keys);
    OneMatcherPerIdentifier(matchers, all);
  }

  method Collect(values: seq<string>) returns (entered: set<string>)
    ensures entered == ToSet(values)
  {
    entered := {};
    for j := 0 to |values|
      invariant entered == ToSet(values[..j])
    {
      entered := entered + {values[j]};
    }
    assert values[..|values|] == values;
  }

  method EnterAll(oidMap: map<string, set<string>>, matchers: seq<Keyed>, ghost before: seq<Keyed>)
    returns (more: map<string, set<string>>)
    requires oidMap == LastValues(before)
    ensures more == LastValues(before + matchers)
  {
    more := oidMap;
    assert before + matchers[..0] == before;
    for k := 0 to |matchers|
      invariant more == LastValues(before + matchers[..k])
    {
      var values := Collect(matchers[k].values);
      EnteredOneMore(before + matchers[..k], matchers[k]);
      assert before + matchers[..k] + [matchers[k]] == before + matchers[..k + 1];
      more := more[matchers[k].key := values];
    }
    assert matchers[..|matchers|] == matchers;
  }

  lemma EnteredOneMore(all: seq<Keyed>, last: Keyed)
    ensures LastValues(all + [last]) == LastValues(all)[last.key := ToSet(last.values)]
  {
    assert (all + [last])[..|all|] == all;
  }

  method ListValues(values: set<string>) returns (list: seq<string>)
    ensures NoDuplicates(list) && ToSet(list) == values
  {
    list := [];
    var todo := values;
    while todo != {}
      invariant todo <= values && NoDuplicates(list) && ToSet(list) == values - todo
      decreases |todo|
    {
      var v :| v in todo;
      AppendFresh(list, v);
      list := list + [v];
      todo := todo - {v};
    }
  }

  lemma RendersOneMore(matchers: seq<Matcher>, keys: seq<string>, oidMap: map<string, set<string>>, key: string,
          m: Matcher)
    requires Renders(matchers, keys, oidMap) && key in oidMap && key !in ToSet(keys)
    requires ParseOid(key) == Some(m.id) && NoDuplicates(m.values) && ToSet(m.values) == oidMap[key]
    ensures Renders(matchers + [m], keys + [key], oidMap) && ToSet(keys + [key]) == ToSet(keys) + {key}
  {
    AppendFresh(keys, key);
  }

  /** The matcher of one key of the map. */
  method ListOne(key: string, entered: set<string>) returns (r: Result<Matcher>)
    ensures r.Ok? <==> ParseOid(key).Some?
    ensures r.Ok? ==>
              && ParseOid(key) == Some(r.value.id)
              && NoDuplicates(r.value.values) && ToSet(r.value.values) == entered
  {
    var parsed := ParseObjectIdentifier(key);
    if parsed.Err? {
      return Err("error parsing OID from extension");
    }
    var values := ListValues(entered);
    return Ok(Matcher(parsed.value, values));
  }

  /** The map as a list of matchers, in whatever order the map yields its keys. */
  method ListMatchers(oidMap: map<string, set<string>>) returns (r: Result<seq<Matcher>>, ghost keys: seq<string>)
    ensures r.Ok? <==> forall key :: key in oidMap ==> ParseOid(key).Some?
    ensures r.Ok? ==> Renders(r.value, keys, oidMap) && ToSet(keys) == oidMap.Keys
  {
    var allMatchers: seq<Matcher> := [];
    keys := [];
    var todo := oidMap.Keys;
    while todo != {}
      invariant todo <= oidMap.Keys && ToSet(keys) == oidMap.Keys - todo
      invariant Renders(allMatchers, keys, oidMap)
      invariant forall key :: key in oidMap.Keys - todo ==> ParseOid(key).Some?
      decreases |todo|
    {
      var key :| key in todo;
      var m := ListOne(key, oidMap[key]);
      if m.Err? {
        return Err(m.message), keys;
      }
      RendersOneMore(allMatchers, keys, oidMap, key, m.value);
      allMatchers := allMatchers + [m.value];
      keys := keys + [key];
      todo := todo - {key};
    }
    return Ok(allMatchers), keys;
  }

  /** Direct, then Fulcio, then custom matchers are entered, then the map is listed. */
  method RenderOIDMatchers(direct: seq<Matcher>, fulcio: seq<Matcher>, custom: seq<Keyed>)
    returns (r: Result<seq<Matcher>>)
    ensures r.Ok? <==> forall key :: key in LastValues(PrintKeys(direct) + PrintKeys(fulcio) + custom) ==>
              ParseOid(key).Some?
    ensures r.Ok? ==> IsRendering(r.value, PrintKeys(direct) + PrintKeys(fulcio) + custom)
  {
    var oidMap: map<string, set<string>> := map[];
    oidMap := EnterAll(oidMap, PrintKeys(direct), []);
    assert [] + PrintKeys(direct) == PrintKeys(direct);
    oidMap := EnterAll(oidMap, PrintKeys(fulcio), PrintKeys(direct));
    oidMap := EnterAll(oidMap, custom, PrintKeys(direct) + PrintKeys(fulcio));
    ghost var keys;
    r, keys := ListMatchers(oidMap);
  }

  /** The values of a key are those of its last occurrence alone; what earlier occurrences listed is gone. */
  lemma {:induction false} LastOccurrenceWins(all: seq<Keyed>, k: nat)
    requires k < |all| && forall j :: k < j < |all| ==> all[j].key != all[k].key
    ensures all[k].key in LastValues(all) && LastValues(all)[all[k].key] == ToSet(all[k].values)
    decreases |all|
  {
    if k < |all| - 1 {
      LastOccurrenceWins(all[..|all| - 1], k);
    }
  }

  lemma {:induction false} KeysAreTheOccurring(all: seq<Keyed>, key: string)
    ensures key in LastValues(all) <==> exists k :: 0 <= k < |all| && all[k].key == key
    decreases |all|
  {
    if all != [] {
      var front := all[..|all| - 1];
      KeysAreTheOccurring(front, key);
      if key in LastValues(front) {
        var k :| 0 <= k < |front| && front[k].key == key;
        assert all[k].key == key;
      }
      if exists k :: 0 <= k < |all| && all[k].key == key {
        var k :| 0 <= k < |all| && all[k].key == key;
        assert k < |front| ==> front[k].key == key;
      }
    }
  }

  /** A matcher that no later one has the key of is rendered, with exactly its values. */
  lemma LastIsRendered(matchers: seq<Matcher>, all: seq<Keyed>, k: nat) returns (m: Matcher)
    requires IsRendering(matchers, all)
    requires k < |all| && forall j :: k < j < |all| ==> all[j].key != all[k].key
    ensures m in matchers && ParseOid(all[k].key) == Some(m.id)
    ensures forall v :: v in m.values <==> v in all[k].values
  {
    var keys :| Renders(matchers, keys, LastValues(all)) && ToSet(keys) == LastValues(all).Keys;
    LastOccurrenceWins(all, k);
    assert all[k].key in ToSet(keys);
    var i :| 0 <= i < |keys| && keys[i] == all[k].key;
    m := matchers[i];
    assert forall v :: v in m.values <==> v in ToSet(m.values);
    assert forall v :: v in all[k].values <==> v in ToSet(all[k].values);
  }

  /** A direct matcher is rendered as it is, unless a later direct, Fulcio or custom one has its printed form. */
  lemma DirectIsRendered(matchers: seq<Matcher>, direct: seq<Matcher>, fulcio: seq<Matcher>, custom: seq<Keyed>, k: nat)
    returns (m: Matcher)
    requires IsRendering(matchers, PrintKeys(direct) + PrintKeys(fulcio) + custom)
    requires k < |direct| && direct[k].id != [] && forall c :: c in direct[k].id ==> InInt64(c)
    requires forall j :: k < j < |direct| ==> Print(direct[j].id) != Print(direct[k].id)
    requires forall f :: f in fulcio ==> Print(f.id) != Print(direct[k].id)
    requires forall c :: c in custom ==> c.key != Print(direct[k].id)
    ensures m in matchers && m.id == direct[k].id && forall v :: v in m.values <==> v in direct[k].values
  {
    var all := PrintKeys(direct) + PrintKeys(fulcio) + custom;
    forall j | k < j < |all|
      ensures all[j].key != all[k].key
    {
      if |direct| <= j < |direct| + |fulcio| {
        assert fulcio[j - |direct|] in fulcio;
      } else if |direct| + |fulcio| <= j {
        assert custom[j - |direct| - |fulcio|] in custom;
      }
    }
    m := LastIsRendered(matchers, all, k);
    ParseOfPrint(direct[k].id);
  }
}
