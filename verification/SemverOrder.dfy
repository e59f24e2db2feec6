/**
 The order of versions: compare_prerelease and operator<, what order they make of all versions, and
 when it is the precedence of SemVer 2.0.0, section 11. Characters are compared by their codes.
 */
module SemverOrder {
  import opened Results
  import opened Decimal
  import opened TextSearch
  import opened Semver

  // ---- three-way comparison ----

  function CompareNat(a: nat, b: nat): int {
    if a < b then -1 else if a > b then 1 else 0
  }

  function CompareText(a: string, b: string): (c: int)
    ensures -1 <= c <= 1
  {
    if a == "" && b == "" then 0
    else if a == "" then -1
    else if b == "" then 1
    else if a[0] < b[0] then -1
    else if a[0] > b[0] then 1
    else CompareText(a[1..], b[1..])
  }

  lemma {:induction false} TextOrder(a: string, b: string)
    ensures CompareText(a, b) == -CompareText(b, a)
    ensures CompareText(a, b) == 0 <==> a == b
    decreases |a|
  {
    if a != "" && b != "" && a[0] == b[0] {
      TextOrder(a[1..], b[1..]);
      assert a == [a[0]] + a[1..] && b == [b[0]] + b[1..];
    }
  }

  lemma {:induction false} TextTransitive(a: string, b: string, c: string)
    requires CompareText(a, b) < 0 && CompareText(b, c) < 0
    ensures CompareText(a, c) < 0
    decreases |a|
  {
    if a != "" && a[0] == b[0] == c[0] {
      TextTransitive(a[1..], b[1..], c[1..]);
    }
  }

  /** What of an identifier its comparison depends on. */
  datatype Key = Number(n: nat) | Name(text: string)

  /** from_chars leaves 0 behind when there are no digits or too many. */
  function KeyOf(id: string): Key {
    if AllDigits(id) then Number(if Value(id) < ULL_END then Value(id) else 0) else Name(id)
  }

  function CompareKey(a: Key, b: Key): (c: int)
    ensures -1 <= c <= 1
  {
    match (a, b)
    case (Number(m), Number(n)) => CompareNat(m, n)
    case (Number(_), Name(_)) => -1
    case (Name(_), Number(_)) => 1
    case (Name(s), Name(t)) => CompareText(s, t)
  }

  function CompareKeys(a: seq<Key>, b: seq<Key>): (c: int)
    ensures -1 <= c <= 1
  {
    if a == [] && b == [] then 0
    else if a == [] then -1
    else if b == [] then 1
    else if CompareKey(a[0], b[0]) != 0 then CompareKey(a[0], b[0])
    else CompareKeys(a[1..], b[1..])
  }

  lemma {:induction false} KeyOrder(a: Key, b: Key)
    ensures CompareKey(a, b) == -CompareKey(b, a)
    ensures CompareKey(a, b) == 0 <==> a == b
  {
    if a.Name? && b.Name? {
      TextOrder(a.text, b.text);
    }
  }

  lemma {:induction false} KeyTransitive(a: Key, b: Key, c: Key)
    requires CompareKey(a, b) < 0 && CompareKey(b, c) < 0
    ensures CompareKey(a, c) < 0
  {
    if a.Name? && b.Name? && c.Name? {
      TextTransitive(a.text, b.text, c.text);
    }
  }

  lemma {:induction false} KeysOrder(a: seq<Key>, b: seq<Key>)
    ensures CompareKeys(a, b) == -CompareKeys(b, a)
    ensures CompareKeys(a, b) == 0 <==> a == b
    decreases |a|
  {
    if a != [] && b != [] {
      KeyOrder(a[0], b[0]);
      KeysOrder(a[1..], b[1..]);
      assert a == [a[0]] + a[1..] && b == [b[0]] + b[1..];
    }
  }

  lemma {:induction false} KeysTransitive(a: seq<Key>, b: seq<Key>, c: seq<Key>)
    requires CompareKeys(a, b) < 0 && CompareKeys(b, c) < 0
    ensures CompareKeys(a, c) < 0
    decreases |a|
  {
    if a != [] {
      KeyOrder(a[0], b[0]);
      KeyOrder(b[0], c[0]);
      if CompareKey(a[0], b[0]) == 0 && CompareKey(b[0], c[0]) == 0 {
        KeysTransitive(a[1..], b[1..], c[1..]);
      } else if CompareKey(a[0], b[0]) < 0 && CompareKey(b[0], c[0]) < 0 {
        KeyTransitive(a[0], b[0], c[0]);
      }
    }
  }

  // ---- the order of versions ----

  function Keys(ids: seq<string>): seq<Key> {
    seq(|ids|, k requires 0 <= k < |ids| => KeyOf(ids[k]))
  }

  /** compare_prerelease: no prerelease comes after every prerelease. */
  function ComparePrerelease(a: string, b: string): int {
    if a == "" && b == "" then 0
    else if a == "" then 1
    else if b == "" then -1
    else CompareKeys(Keys(Identifiers(a)), Keys(Identifiers(b)))
  }

  predicate Less(v: Version, w: Version) {
    if v.major != w.major then v.major < w.major
    else if v.minor != w.minor then v.minor < w.minor
    else if v.patch != w.patch then v.patch < w.patch
    else ComparePrerelease(v.prerelease, w.prerelease) < 0
  }

  /** operator==, which leaves the build metadata out. */
  predicate Equal(v: Version, w: Version) {
    v.major == w.major && v.minor == w.minor && v.patch == w.patch && v.prerelease == w.prerelease
  }

  predicate Tied(v: Version, w: Version) {
    !Less(v, w) && !Less(w, v)
  }

  lemma {:induction false} PrereleaseOrder(a: string, b: string)
    ensures ComparePrerelease(a, b) == -ComparePrerelease(b, a)
    ensures ComparePrerelease(a, b) == 0 <==> (a == "" <==> b == "") && Keys(Identifiers(a)) == Keys(Identifiers(b))
  {
    KeysOrder(Keys(Identifiers(a)), Keys(Identifiers(b)));
  }

  lemma {:induction false} PrereleaseTransitive(a: string, b: string, c: string)
    requires ComparePrerelease(a, b) < 0 && ComparePrerelease(b, c) < 0
    ensures ComparePrerelease(a, c) < 0
  {
    if a != "" && b != "" && c != "" {
      KeysTransitive(Keys(Identifiers(a)), Keys(Identifiers(b)), Keys(Identifiers(c)));
    }
  }

  /** Versions tie exactly when all that is compared of them agrees. */
  lemma {:induction false} TiedIff(v: Version, w: Version)
    ensures Tied(v, w) <==>
            && v.major == w.major && v.minor == w.minor && v.patch == w.patch
            && (v.prerelease == "" <==> w.prerelease == "")
            && Keys(Identifiers(v.prerelease)) == Keys(Identifiers(w.prerelease))
  {
    PrereleaseOrder(v.prerelease, w.prerelease);
  }

  /** operator< is a strict weak order of all versions. */
  lemma {:induction false} StrictWeakOrder(u: Version, v: Version, w: Version)
    ensures !Less(u, u)
    ensures Less(u, v) && Less(v, w) ==> Less(u, w)
    ensures Tied(u, v) && Tied(v, w) ==> Tied(u, w)
    ensures Equal(u, v) ==> Tied(u, v)
  {
    hide Keys, Identifiers, ComparePrerelease;
    PrereleaseOrder(u.prerelease, u.prerelease);
    PrereleaseOrder(u.prerelease, v.prerelease);
    PrereleaseOrder(v.prerelease, w.prerelease);
    PrereleaseOrder(u.prerelease, w.prerelease);
    if ComparePrerelease(u.prerelease, v.prerelease) < 0 && ComparePrerelease(v.prerelease, w.prerelease) < 0 {
      PrereleaseTransitive(u.prerelease, v.prerelease, w.prerelease);
    }
  }

  // ---- section 11 ----

  /** The stretches between dots. */
  function Fields(s: string): seq<string>
    decreases |s|
  {
    var dot := Index(s, '.');
    [s[..dot]] + if dot == |s| then [] else Fields(s[dot + 1..])
  }

  /** Identifiers that SemVer allows, and whose numbers the comparison can hold. */
  predicate Comparable(s: string) {
    s == "" || forall k :: 0 <= k < |Fields(s)| ==> ComparableField(Fields(s)[k])
  }

  predicate ComparableField(id: string) {
    id != "" && (AllDigits(id) ==> Value(id) < 0x1_0000_0000_0000_0000 && (|id| > 1 ==> id[0] != '0'))
  }

  /** Before at the first difference, or shorter. */
  ghost predicate TextPrecedes(a: string, b: string) {
    || (exists k :: 0 <= k < |a| && k < |b| && a[..k] == b[..k] && a[k] < b[k])
    || (|a| < |b| && a == b[..|a|])
  }

  /** Numeric identifiers by their numbers and before the others, the others in ASCII order. */
  ghost predicate FieldPrecedes(a: string, b: string) {
    if AllDigits(a) && AllDigits(b) then Value(a) < Value(b)
    else if AllDigits(a) || AllDigits(b) then AllDigits(a)
    else TextPrecedes(a, b)
  }

  ghost predicate FieldsPrecede(a: seq<string>, b: seq<string>) {
    || (exists k :: 0 <= k < |a| && k < |b| && a[..k] == b[..k] && FieldPrecedes(a[k], b[k]))
    || (|a| < |b| && a == b[..|a|])
  }

  /** SemVer 2.0.0, section 11. */
  ghost predicate Precedes(v: Version, w: Version) {
    if v.major != w.major then v.major < w.major
    else if v.minor != w.minor then v.minor < w.minor
    else if v.patch != w.patch then v.patch < w.patch
    else v.prerelease != "" && (w.prerelease == "" || FieldsPrecede(Fields(v.prerelease), Fields(w.prerelease)))
  }

  lemma {:induction false} TextPrecedesIff(a: string, b: string)
    ensures CompareText(a, b) < 0 <==> TextPrecedes(a, b)
    decreases |a|
  {
    if a != "" && b != "" {
      if a[0] == b[0] {
        TextPrecedesIff(a[1..], b[1..]);
        TextPrecedesTail(a, b);
      } else if a[0] < b[0] {
        assert a[..0] == b[..0];
      }
    }
  }

  lemma {:induction false} TextPrecedesTail(a: string, b: string)
    requires a != "" && b != "" && a[0] == b[0]
    ensures TextPrecedes(a, b) <==> TextPrecedes(a[1..], b[1..])
  {
    if TextPrecedes(a, b) {
      TextPrecedesInTail(a, b);
    }
    if TextPrecedes(a[1..], b[1..]) {
      TextPrecedesFromTail(a, b);
    }
  }

  lemma {:induction false} TextPrecedesInTail(a: string, b: string)
    requires a != "" && b != "" && a[0] == b[0] && TextPrecedes(a, b)
    ensures TextPrecedes(a[1..], b[1..])
  {
    if k :| 0 <= k < |a| && k < |b| && a[..k] == b[..k] && a[k] < b[k] {
      assert k > 0;
      assert a[1..][..k - 1] == a[..k][1..] && b[1..][..k - 1] == b[..k][1..];
      assert a[1..][k - 1] < b[1..][k - 1];
    } else {
      assert a[1..] == b[..|a|][1..] == b[1..][..|a| - 1];
    }
  }

  lemma {:induction false} TextPrecedesFromTail(a: string, b: string)
    requires a != "" && b != "" && a[0] == b[0] && TextPrecedes(a[1..], b[1..])
    ensures TextPrecedes(a, b)
  {
    var s, t := a[1..], b[1..];
    if k :| 0 <= k < |s| && k < |t| && s[..k] == t[..k] && s[k] < t[k] {
      assert a[..k + 1] == [a[0]] + s[..k] && b[..k + 1] == [b[0]] + t[..k];
      assert a[k + 1] < b[k + 1];
    } else {
      assert b[..|a|] == [b[0]] + t[..|s|];
      assert a == [a[0]] + s;
    }
  }

  lemma {:induction false} FieldPrecedesIff(a: string, b: string)
    requires ComparableField(a) && ComparableField(b)
    ensures CompareKey(KeyOf(a), KeyOf(b)) < 0 <==> FieldPrecedes(a, b)
    ensures CompareKey(KeyOf(a), KeyOf(b)) == 0 <==> a == b
  {
    TextPrecedesIff(a, b);
    KeyOrder(KeyOf(a), KeyOf(b));
    if AllDigits(a) && AllDigits(b) && Value(a) == Value(b) {
      DigitsOfValue(a);
      DigitsOfValue(b);
    }
  }

  lemma {:induction false} FieldsPrecedeTail(a: seq<string>, b: seq<string>)
    requires a != [] && b != [] && a[0] == b[0] && !FieldPrecedes(a[0], b[0])
    ensures FieldsPrecede(a, b) <==> FieldsPrecede(a[1..], b[1..])
  {
    hide FieldPrecedes;
    if k :| 0 <= k < |a| && k < |b| && a[..k] == b[..k] && FieldPrecedes(a[k], b[k]) {
      assert a[1..][..k - 1] == a[..k][1..] && b[1..][..k - 1] == b[..k][1..];
      assert FieldPrecedes(a[1..][k - 1], b[1..][k - 1]);
    }
    if k :| 0 <= k < |a| - 1 && k < |b| - 1 && a[1..][..k] == b[1..][..k] && FieldPrecedes(a[1..][k], b[1..][k]) {
      assert a[..k + 1] == [a[0]] + a[1..][..k] && b[..k + 1] == [b[0]] + b[1..][..k];
      assert FieldPrecedes(a[k + 1], b[k + 1]);
    }
    if |a| < |b| {
      assert b[..|a|] == [b[0]] + b[1..][..|a| - 1];
      assert a == [a[0]] + a[1..];
    }
  }

  ghost predicate AllComparable(ids: seq<string>) {
    forall k :: 0 <= k < |ids| ==> ComparableField(ids[k])
  }

  lemma {:induction false} FieldsPrecedeIff(a: seq<string>, b: seq<string>)
    requires AllComparable(a) && AllComparable(b)
    ensures CompareKeys(Keys(a), Keys(b)) < 0 <==> FieldsPrecede(a, b)
    ensures Keys(a) == Keys(b) <==> a == b
    decreases |a|
  {
    KeysTail(a);
    KeysTail(b);
    hide KeyOf, FieldPrecedes, ComparableField, CompareKey, Keys, FieldsPrecede;
    if a != [] && b != [] {
      assert ComparableField(a[0]) && ComparableField(b[0]);
      FieldPrecedesIff(a[0], b[0]);
      FieldsPrecedeIff(a[1..], b[1..]);
      assert a == [a[0]] + a[1..] && b == [b[0]] + b[1..];
      KeyOrder(KeyOf(a[0]), KeyOf(b[0]));
      CompareKeysHead(KeyOf(a[0]), Keys(a[1..]), KeyOf(b[0]), Keys(b[1..]));
      if a[0] == b[0] {
        FieldsPrecedeTail(a, b);
      } else {
        FieldsDiffer(a, b);
      }
    } else {
      FieldsPrecedeEmpty(a, b);
    }
  }

  lemma {:induction false} CompareKeysHead(k: Key, a: seq<Key>, l: Key, b: seq<Key>)
    ensures CompareKeys([k] + a, [l] + b) == if CompareKey(k, l) != 0 then CompareKey(k, l) else CompareKeys(a, b)
    ensures [k] + a == [l] + b <==> k == l && a == b
  {
    assert ([k] + a)[1..] == a && ([l] + b)[1..] == b;
  }

  lemma {:induction false} FieldsPrecedeEmpty(a: seq<string>, b: seq<string>)
    requires a == [] || b == []
    ensures FieldsPrecede(a, b) <==> a == [] && b != []
  {
  }

  lemma {:induction false} FieldsDiffer(a: seq<string>, b: seq<string>)
    requires a != [] && b != [] && a[0] != b[0]
    ensures FieldsPrecede(a, b) <==> FieldPrecedes(a[0], b[0])
  {
  }

  lemma {:induction false} KeysTail(ids: seq<string>)
    ensures Keys(ids) == if ids == [] then [] else [KeyOf(ids[0])] + Keys(ids[1..])
  {
  }

  lemma {:induction false} IdentifiersAreFields(s: string)
    requires s != "" && Comparable(s)
    ensures Identifiers(s) == Fields(s)
    decreases |s|
  {
    hide Identifiers, Index, Fields, Comparable;
    var dot := Index(s, '.');
    IdentifiersHead(s);
    FieldsHead(s);
    NoneAfterEnd(s);
    if dot < |s| {
      RestIsComparable(s);
      IdentifiersAreFields(s[dot + 1..]);
    }
  }

  lemma {:induction false} NoneAfterEnd(s: string)
    ensures IdentifiersAfter(s, |s|) == []
    ensures forall dot: nat :: dot < |s| ==> IdentifiersAfter(s, dot) == Identifiers(s[dot + 1..])
  {
  }

  lemma {:induction false} RestIsComparable(s: string)
    requires Comparable(s) && Index(s, '.') < |s|
    ensures var rest := s[Index(s, '.') + 1..]; rest != "" && Comparable(rest)
  {
    hide Index, Fields, ComparableField;
    var rest := s[Index(s, '.') + 1..];
    FieldsHead(s);
    assert Fields(s)[1..] == Fields(rest);
    forall k | 0 <= k < |Fields(rest)| ensures ComparableField(Fields(rest)[k]) {
      assert Fields(s)[k + 1] == Fields(rest)[k];
    }
    FieldsHead(rest);
    NothingIsNoField();
    assert ComparableField(Fields(rest)[0]);
  }

  lemma {:induction false} FieldsHead(s: string)
    ensures var dot := Index(s, '.'); Fields(s) == [s[..dot]] + if dot == |s| then [] else Fields(s[dot + 1..])
  {
  }

  /** The fields determine the text. */
  function Joined(fields: seq<string>): string {
    if fields == [] then "" else if |fields| == 1 then fields[0] else fields[0] + "." + Joined(fields[1..])
  }

  lemma {:induction false} JoinedFields(s: string)
    ensures Joined(Fields(s)) == s
    decreases |s|
  {
    hide Index, Fields;
    FieldsHead(s);
    var dot := Index(s, '.');
    if dot < |s| {
      JoinedFields(s[dot + 1..]);
      assert Fields(s)[1..] == Fields(s[dot + 1..]);
      FieldsHead(s[dot + 1..]);
      assert s == s[..dot] + "." + s[dot + 1..];
    } else {
      assert s[..dot] == s;
    }
  }

  /**
   Where identifiers are as SemVer wants them and their numbers are of 64 bits, operator< is the
   precedence of section 11, and its ties are the equal versions.
   */
  lemma {:induction false} LessIsPrecedence(v: Version, w: Version)
    requires Comparable(v.prerelease) && Comparable(w.prerelease)
    ensures Less(v, w) <==> Precedes(v, w)
    ensures Tied(v, w) <==> Equal(v, w)
  {
    var p, q := v.prerelease, w.prerelease;
    TiedIff(v, w);
    if p != "" && q != "" {
      assert AllComparable(Fields(p)) && AllComparable(Fields(q));
      IdentifiersAreFields(p);
      IdentifiersAreFields(q);
      JoinedFields(p);
      JoinedFields(q);
      hide AllComparable, Fields, Identifiers, Comparable, Keys, FieldsPrecede, CompareKeys, Joined;
      FieldsPrecedeIff(Fields(p), Fields(q));
    }
  }

  // ---- where the order is not section 11's ----

  /** The identifier that compares like this one and that SemVer allows. */
  function CanonicalId(id: string): string {
    match KeyOf(id) case Number(n) => Digits(n) case Name(text) => text
  }

  function Canonical(ids: seq<string>): seq<string> {
    seq(|ids|, k requires 0 <= k < |ids| => CanonicalId(ids[k]))
  }

  lemma {:induction false} CanonicalIdCompares(id: string)
    ensures KeyOf(CanonicalId(id)) == KeyOf(id) && ComparableField(CanonicalId(id))
    ensures '.' !in id ==> '.' !in CanonicalId(id)
  {
    match KeyOf(id) {
      case Number(n) => ValueOfDigits(n);
      case Name(_) =>
    }
  }

  lemma {:induction false} IdentifiersHaveNoDot(s: string)
    ensures forall k :: 0 <= k < |Identifiers(s)| ==> '.' !in Identifiers(s)[k]
    decreases |s|
  {
    if s != "" {
      var dot := Index(s, '.');
      IdentifiersHead(s);
      NotBefore(s, '.');
      if dot < |s| {
        IdentifiersHaveNoDot(s[dot + 1..]);
      }
    }
  }

  lemma {:induction false} FieldsOfJoined(ids: seq<string>)
    requires ids != [] && forall k :: 0 <= k < |ids| ==> '.' !in ids[k]
    ensures Fields(Joined(ids)) == ids
    decreases ids
  {
    var s := Joined(ids);
    FieldsHead(s);
    if |ids| == 1 {
      assert s + "" == s;
      IndexIs(s, "", '.');
    } else {
      var rest := Joined(ids[1..]);
      assert s == ids[0] + ("." + rest);
      IndexIs(ids[0], "." + rest, '.');
      assert s[..|ids[0]|] == ids[0] && s[|ids[0]| + 1..] == rest;
      FieldsOfJoined(ids[1..]);
    }
  }

  /** Another prerelease that SemVer allows and that ties with this one. */
  lemma {:induction false} CanonicalTies(s: string)
    requires s != ""
    ensures var t := Joined(Canonical(Identifiers(s)));
            t != "" && Comparable(t) && Keys(Identifiers(t)) == Keys(Identifiers(s))
  {
    var ids := Identifiers(s);
    var c := Canonical(ids);
    IdentifiersHaveNoDot(s);
    forall k | 0 <= k < |c| ensures '.' !in c[k] && ComparableField(c[k]) && KeyOf(c[k]) == KeyOf(ids[k]) {
      CanonicalIdCompares(ids[k]);
    }
    hide KeyOf, CanonicalId, ComparableField;
    FieldsOfJoined(c);
    var t := Joined(c);
    NothingIsNoField();
    assert ComparableField(c[0]);
    assert t != "";
    IdentifiersAreFields(t);
  }

  lemma {:induction false} NothingIsNoField()
    ensures Fields("") == [""] && !ComparableField("")
  {
  }

  /**
   Exactly the versions whose prerelease SemVer allows, with numbers of 64 bits, stand where section 11
   puts them among those versions; of the others each ties with a version that it does not equal.
   */
  lemma {:induction false} PrecedenceIff(v: Version)
    ensures Comparable(v.prerelease) <==>
            forall w: Version :: Comparable(w.prerelease) ==>
              (Less(v, w) <==> Precedes(v, w)) && (Less(w, v) <==> Precedes(w, v)) && (Tied(v, w) <==> Equal(v, w))
  {
    hide Less, Precedes, Tied, Equal, Comparable;
    if Comparable(v.prerelease) {
      forall w: Version | Comparable(w.prerelease)
        ensures (Less(v, w) <==> Precedes(v, w)) && (Less(w, v) <==> Precedes(w, v)) && (Tied(v, w) <==> Equal(v, w))
      {
        LessIsPrecedence(v, w);
        LessIsPrecedence(w, v);
      }
    } else {
      NotComparableTies(v);
    }
  }

  lemma {:induction false} NotComparableTies(v: Version)
    requires !Comparable(v.prerelease)
    ensures exists w: Version :: Comparable(w.prerelease) && Tied(v, w) && !Equal(v, w)
  {
    var w := v.(prerelease := Joined(Canonical(Identifiers(v.prerelease))));
    CanonicalTies(v.prerelease);
    hide Comparable, Keys, Identifiers, Canonical, Joined;
    TiedIff(v, w);
    assert Comparable(w.prerelease) && Tied(v, w) && !Equal(v, w);
  }

  // ---- the loop ----

  /** compare_prerelease, on cursors. */
  method ComparePrereleases(a: string, b: string) returns (c: int)
    ensures c == ComparePrerelease(a, b)
  {
    CompareFromStart(a, b);
    hide Identifiers, Find, KeyOf, CompareKey, Keys, CompareFrom, ComparePrerelease;
    if |a| == 0 && |b| == 0 {
      return 0;
    }
    if |a| == 0 {
      return 1;
    }
    if |b| == 0 {
      return -1;
    }
    var i, j := 0, 0;
    while i != |a| && j != |b|
      invariant 0 <= i <= |a| && 0 <= j <= |b|
      invariant ComparePrerelease(a, b) == CompareFrom(a, i, b, j)
      decreases |a| - i
    {
      var dotA := Find(a, '.', i);
      var dotB := Find(b, '.', j);
      CompareHeads(a, i, b, j);
      c := CompareIdentifiers(a[i..dotA], b[j..dotB]);
      if c != 0 {
        return;
      }
      i := if dotA == |a| then |a| else dotA + 1;
      j := if dotB == |b| then |b| else dotB + 1;
    }
    CompareAtEnd(a, i, b, j);
    if i == |a| && j == |b| {
      return 0;
    }
    c := if i == |a| then -1 else 1;
  }

  /** One turn of the loop: numbers as from_chars leaves them, names by lexicographical_compare. */
  method CompareIdentifiers(a: string, b: string) returns (c: int)
    ensures c == CompareKey(KeyOf(a), KeyOf(b))
  {
    var numericA := AreDigits(a, 0, |a|);
    var numericB := AreDigits(b, 0, |b|);
    assert a[0..|a|] == a && b[0..|b|] == b;
    if numericA && numericB {
      var m := if Value(a) < ULL_END then Value(a) else 0;
      var n := if Value(b) < ULL_END then Value(b) else 0;
      return if m < n then -1 else if m > n then 1 else 0;
    } else if numericA != numericB {
      return if numericA then -1 else 1;
    } else {
      TextOrder(a, b);
      return if CompareText(a, b) < 0 then -1 else if CompareText(b, a) < 0 then 1 else 0;
    }
  }

  function CompareFrom(a: string, i: nat, b: string, j: nat): int
    requires i <= |a| && j <= |b|
  {
    CompareKeys(Keys(Identifiers(a[i..])), Keys(Identifiers(b[j..])))
  }

  lemma {:induction false} CompareFromStart(a: string, b: string)
    ensures ComparePrerelease(a, b)
         == if a == "" && b == "" then 0 else if a == "" then 1 else if b == "" then -1 else CompareFrom(a, 0, b, 0)
  {
  }

  lemma {:induction false} CompareHeads(a: string, i: nat, b: string, j: nat)
    requires i < |a| && j < |b|
    ensures var p, q := Find(a, '.', i), Find(b, '.', j);
            var c := CompareKey(KeyOf(a[i..p]), KeyOf(b[j..q]));
            CompareFrom(a, i, b, j) == (
              if c != 0 then c
              else CompareFrom(a, if p == |a| then |a| else p + 1, b, if q == |b| then |b| else q + 1))
  {
    hide Identifiers, Find, Keys, KeyOf, CompareKey;
    KeysFrom(a, i);
    KeysFrom(b, j);
    var p, q := Find(a, '.', i), Find(b, '.', j);
    var i', j' := if p == |a| then |a| else p + 1, if q == |b| then |b| else q + 1;
    CompareKeysHead(KeyOf(a[i..p]), Keys(Identifiers(a[i'..])), KeyOf(b[j..q]), Keys(Identifiers(b[j'..])));
  }

  lemma {:induction false} KeysFrom(a: string, i: nat)
    requires i < |a|
    ensures var p := Find(a, '.', i);
            Keys(Identifiers(a[i..])) == [KeyOf(a[i..p])] + Keys(Identifiers(a[if p == |a| then |a| else p + 1..]))
  {
    var p := Find(a, '.', i);
    IdentifiersFrom(a, i);
    assert a[|a|..] == "";
    assert Identifiers("") == [];
    hide Find, Identifiers, KeyOf;
    KeysTail(Identifiers(a[i..]));
  }

  lemma {:induction false} CompareAtEnd(a: string, i: nat, b: string, j: nat)
    requires i <= |a| && j <= |b| && (i == |a| || j == |b|)
    ensures CompareFrom(a, i, b, j) == if i == |a| && j == |b| then 0 else if i == |a| then -1 else 1
  {
  }
}
