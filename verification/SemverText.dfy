/** Reading a version from text and writing it. Reading accepts a little more than is ever written. */
module SemverText {
  import opened Results
  import opened Decimal
  import opened TextSearch
  import opened Semver

  // ---- the numbers ----

  /** from_chars into int, all of the text: an optional minus sign and digits. */
  function FromChars(t: string): Option<int> {
    var negative := t != "" && t[0] == '-';
    var digits := if negative then t[1..] else t;
    if digits == "" || !AllDigits(digits) then None
    else
      var n: int := Value(digits);
      if negative then if n <= INT_MAX + 1 then Some(-n) else None
      else if n <= INT_MAX then Some(n) else None
  }

  /** A number of 32 bits with a sign. */
  lemma {:induction false} FromCharsIff(digits: string)
    requires digits != "" && AllDigits(digits)
    ensures FromChars(digits) == if Value(digits) <= 0x7FFF_FFFF then Some(Value(digits)) else None
    ensures FromChars("-" + digits) == if Value(digits) <= 0x8000_0000 then Some(0 - Value(digits)) else None
  {
    assert ("-" + digits)[1..] == digits;
    assert IsDigit(digits[0]);
  }

  /** parse_uint_segment. */
  function ParseSegment(t: string): Option<nat> {
    if t == "" || (|t| > 1 && t[0] == '0') then None
    else
      match FromChars(t)
      case None => None
      case Some(n) => if n < 0 then None else Some(n)
  }

  /** Exactly these texts are numbers: what to_string writes, and zeros after a minus sign. */
  lemma {:induction false} SegmentIff(t: string, n: nat)
    ensures ParseSegment(t) == Some(n) <==>
            (n <= 0x7FFF_FFFF && t == Digits(n)) || (n == 0 && |t| > 1 && t[0] == '-' && Zeros(t[1..]))
  {
    if n <= INT_MAX && t == Digits(n) {
      ValueOfDigits(n);
      assert IsDigit(t[0]);
    }
    if t != "" && AllDigits(t) && !(|t| > 1 && t[0] == '0') {
      DigitsOfValue(t);
    }
    if t != "" && t[0] == '-' && AllDigits(t[1..]) {
      ZeroIff(t[1..]);
    }
  }

  predicate Zeros(s: string) {
    forall k :: 0 <= k < |s| ==> s[k] == '0'
  }

  lemma {:induction false} ZeroIff(s: string)
    requires AllDigits(s)
    ensures Value(s) == 0 <==> Zeros(s)
    decreases |s|
  {
    if s != "" {
      ZeroIff(s[..|s| - 1]);
    }
  }

  lemma {:induction false} SegmentHasNoDot(t: string, n: nat)
    requires ParseSegment(t) == Some(n)
    ensures '.' !in t && '+' !in t && ('-' in t ==> t[0] == '-')
  {
  }

  // ---- the whole ----

  function SuffixOf(prerelease: string, build: string): string {
    (if prerelease == "" then "" else "-" + prerelease) + if build == "" then "" else "+" + build
  }

  function ToString(v: Version): string {
    Digits(v.major) + "." + Digits(v.minor) + "." + Digits(v.patch) + SuffixOf(v.prerelease, v.build)
  }

  predicate ValidParts(prerelease: string, build: string) {
    (prerelease == "" || ValidIdentifiers(prerelease)) && (build == "" || ValidIdentifiers(build))
  }

  /** The text is three numbers and a suffix that stand for the version; the last number has no sign. */
  ghost predicate DenotesWith(str: string, v: Version, major: string, minor: string, patch: string) {
    && str == major + "." + minor + "." + patch + SuffixOf(v.prerelease, v.build)
    && ParseSegment(major) == Some(v.major) && ParseSegment(minor) == Some(v.minor) && ParseSegment(patch) == Some(v.patch)
    && '-' !in patch && ValidParts(v.prerelease, v.build)
  }

  ghost predicate Denotes(str: string, v: Version) {
    exists major, minor, patch :: DenotesWith(str, v, major, minor, patch)
  }

  /** The first place of either character, or the length. */
  function IndexEither(s: string, c: char, d: char): (k: nat)
    ensures k <= |s| && (k < |s| ==> s[k] == c || s[k] == d)
  {
    if s == "" || s[0] == c || s[0] == d then 0 else 1 + IndexEither(s[1..], c, d)
  }

  lemma {:induction false} NeitherBefore(s: string, c: char, d: char)
    ensures c !in s[..IndexEither(s, c, d)] && d !in s[..IndexEither(s, c, d)]
  {
    if s != "" && s[0] != c && s[0] != d {
      NeitherBefore(s[1..], c, d);
      assert s[..IndexEither(s, c, d)] == [s[0]] + s[1..][..IndexEither(s[1..], c, d)];
    }
  }

  lemma {:induction false} IndexEitherIs(a: string, rest: string, c: char, d: char)
    requires c !in a && d !in a && (rest != "" ==> rest[0] == c || rest[0] == d)
    ensures IndexEither(a + rest, c, d) == |a|
  {
    if a == "" {
      assert a + rest == rest;
    } else {
      assert (a + rest)[1..] == a[1..] + rest;
      IndexEitherIs(a[1..], rest, c, d);
    }
  }

  // ---- the suffix ----

  lemma {:induction false} ValidHasNoPlus(s: string)
    requires ValidIdentifiers(s)
    ensures '+' !in s
    decreases |s|
  {
    hide ValidIdentifiers, Index, ValidIdentifier;
    ValidTail(s);
    var dot := Index(s, '.');
    ValidIdentifierHasNoPlus(s[..dot]);
    if dot < |s| && s[dot + 1..] != "" {
      ValidHasNoPlus(s[dot + 1..]);
    }
    NoneBesides(s, dot);
  }

  lemma {:induction false} ValidTail(s: string)
    requires ValidIdentifiers(s)
    ensures var dot := Index(s, '.');
            ValidIdentifier(s[..dot]) && (dot < |s| && s[dot + 1..] != "" ==> ValidIdentifiers(s[dot + 1..]))
  {
    var dot := Index(s, '.');
    IdentifiersHead(s);
    AllValidHead(s[..dot], IdentifiersAfter(s, dot));
    hide ValidIdentifier, Identifiers, Index, AllValid;
  }

  lemma {:induction false} NoneBesides(s: string, dot: nat)
    requires dot <= |s| && '+' !in s[..dot] && (dot < |s| ==> s[dot] == '.' && '+' !in s[dot + 1..])
    ensures '+' !in s
  {
  }

  lemma {:induction false} ValidIdentifierHasNoPlus(id: string)
    requires ValidIdentifier(id)
    ensures '+' !in id
  {
  }

  /** The part of the constructor behind the three numbers. */
  method ParseSuffix(tail: string) returns (r: Option<(string, string)>)
    requires Starts(tail)
    ensures forall p, b :: r == Some((p, b)) <==> ValidParts(p, b) && tail == SuffixOf(p, b)
  {
    hide ValidIdentifiers;
    if tail == "" {
      return Some(("", ""));
    }
    if tail[0] == '+' {
      var build := tail[1..];
      var ok := Validate(build);
      BuildOnly(tail);
      return if ok then Some(("", build)) else None;
    }
    var behind := tail[1..];
    var plus := Index(behind, '+');
    var ok := Validate(behind[..plus]);
    PrereleaseFirst(behind);
    if !ok {
      return None;
    }
    if plus < |behind| {
      var build := behind[plus + 1..];
      ok := Validate(build);
      return if ok then Some((behind[..plus], build)) else None;
    }
    r := Some((behind[..plus], ""));
  }

  predicate Starts(tail: string) {
    tail != "" ==> tail[0] == '-' || tail[0] == '+'
  }

  lemma {:induction false} NothingIsInvalid()
    ensures !ValidIdentifiers("")
  {
  }

  lemma {:induction false} BuildOnly(tail: string)
    requires tail != "" && tail[0] == '+'
    ensures forall p, b :: ValidParts(p, b) && tail == SuffixOf(p, b) <==> ValidIdentifiers(tail[1..]) && p == "" && b == tail[1..]
  {
    hide ValidIdentifiers;
    NothingIsInvalid();
    assert tail == "+" + tail[1..];
    forall p, b | tail == SuffixOf(p, b) ensures p == "" && b == tail[1..] {
      SuffixStarts(p, b);
      assert SuffixOf("", b) == "+" + b;
    }
  }

  lemma {:induction false} PrereleaseFirst(behind: string)
    ensures var plus := Index(behind, '+');
            forall p, b :: ValidParts(p, b) && "-" + behind == SuffixOf(p, b) <==>
              && ValidIdentifiers(behind[..plus]) && p == behind[..plus]
              && (if plus == |behind| then b == "" else ValidIdentifiers(behind[plus + 1..]) && b == behind[plus + 1..])
  {
    hide ValidIdentifiers, Index;
    var plus := Index(behind, '+');
    NothingIsInvalid();
    assert plus < |behind| ==> behind == behind[..plus] + ("+" + behind[plus + 1..]);
    assert plus == |behind| ==> behind == behind[..plus];
    forall p, b | ValidParts(p, b) && "-" + behind == SuffixOf(p, b)
      ensures p == behind[..plus] && b == (if plus == |behind| then "" else behind[plus + 1..])
    {
      SuffixSplits(behind, p, b);
    }
    forall p, b | p == behind[..plus] && p != "" && b == (if plus == |behind| then "" else behind[plus + 1..])
      ensures plus == |behind| || b != "" ==> "-" + behind == SuffixOf(p, b)
    {
      assert plus < |behind| && b != "" ==> "-" + (p + ("+" + b)) == ("-" + p) + ("+" + b);
      assert b == "" ==> SuffixOf(p, b) == "-" + p;
    }
  }

  lemma {:induction false} SuffixSplits(behind: string, p: string, b: string)
    requires "-" + behind == SuffixOf(p, b) && ValidParts(p, b)
    ensures var plus := Index(behind, '+'); p == behind[..plus] && b == (if plus == |behind| then "" else behind[plus + 1..])
  {
    hide ValidIdentifiers, Index, SuffixOf;
    SuffixStarts(p, b);
    assert ("-" + behind)[0] == '-';
    ValidHasNoPlus(p);
    SuffixAround(p, b);
    var tail := if b == "" then "" else "+" + b;
    assert behind == SuffixOf(p, b)[1..];
    IndexIs(p, tail, '+');
    assert behind[..|p|] == p;
    assert b != "" ==> behind[|p| + 1..] == b;
  }

  lemma {:induction false} SuffixAround(p: string, b: string)
    requires p != ""
    ensures SuffixOf(p, b) != "" && SuffixOf(p, b)[1..] == p + if b == "" then "" else "+" + b
  {
  }

  lemma {:induction false} SuffixStarts(p: string, b: string)
    ensures Starts(SuffixOf(p, b))
    ensures p != "" ==> SuffixOf(p, b) != "" && SuffixOf(p, b)[0] == '-'
    ensures p == "" && b != "" ==> SuffixOf(p, b) != "" && SuffixOf(p, b)[0] == '+'
    ensures p == "" && b == "" ==> SuffixOf(p, b) == ""
  {
  }

  // ---- the constructor ----

  /** A text between its first two dots, up to the first minus or plus sign after them, and behind it. */
  datatype Pieces = Pieces(major: string, minor: string, patch: string, tail: string)

  function Glued(p: Pieces): string {
    p.major + ("." + (p.minor + ("." + (p.patch + p.tail))))
  }

  function CutPatch(major: string, minor: string, rest: string): Pieces {
    var end := IndexEither(rest, '-', '+');
    Pieces(major, minor, rest[..end], rest[end..])
  }

  function CutMinor(major: string, rest: string): Option<Pieces> {
    var dot := Index(rest, '.');
    if dot == |rest| then None else Some(CutPatch(major, rest[..dot], rest[dot + 1..]))
  }

  function Cut(str: string): Option<Pieces> {
    var dot := Index(str, '.');
    if dot == |str| then None else CutMinor(str[..dot], str[dot + 1..])
  }

  lemma {:induction false} PatchGlues(major: string, minor: string, rest: string)
    ensures var p := CutPatch(major, minor, rest);
            p.major == major && p.minor == minor && rest == p.patch + p.tail && '-' !in p.patch && Starts(p.tail)
  {
    NeitherBefore(rest, '-', '+');
  }

  lemma {:induction false} MinorGlues(major: string, rest: string)
    requires CutMinor(major, rest).Some?
    ensures var p := CutMinor(major, rest).value;
            p.major == major && rest == p.minor + ("." + (p.patch + p.tail)) && '-' !in p.patch && Starts(p.tail)
  {
    hide CutPatch, Index, Starts;
    var dot := Index(rest, '.');
    PatchGlues(major, rest[..dot], rest[dot + 1..]);
    assert rest == rest[..dot] + ("." + rest[dot + 1..]);
  }

  lemma {:induction false} CutGlues(str: string)
    requires Cut(str).Some?
    ensures var p := Cut(str).value; str == Glued(p) && '-' !in p.patch && Starts(p.tail)
  {
    hide CutMinor, Index, Starts;
    var dot := Index(str, '.');
    MinorGlues(str[..dot], str[dot + 1..]);
    assert str == str[..dot] + ("." + str[dot + 1..]);
  }

  lemma {:induction false} Behind(a: string, rest: string)
    ensures var s := a + ("." + rest); |a| < |s| && s[..|a|] == a && s[|a| + 1..] == rest
    ensures ("." + rest) != "" && ("." + rest)[0] == '.'
  {
  }

  lemma {:induction false} GluedCuts(p: Pieces)
    requires '.' !in p.major && '.' !in p.minor && '-' !in p.patch && '+' !in p.patch && Starts(p.tail)
    ensures Cut(Glued(p)) == Some(p)
  {
    hide Index, IndexEither;
    var rest2 := p.patch + p.tail;
    var rest1 := p.minor + ("." + rest2);
    Behind(p.major, rest1);
    Behind(p.minor, rest2);
    IndexIs(p.major, "." + rest1, '.');
    IndexIs(p.minor, "." + rest2, '.');
    IndexEitherIs(p.patch, p.tail, '-', '+');
    assert rest2[..|p.patch|] == p.patch && rest2[|p.patch|..] == p.tail;
  }

  /** The pieces stand for the version. */
  predicate PiecesDenote(p: Pieces, v: Version) {
    && ParseSegment(p.major) == Some(v.major) && ParseSegment(p.minor) == Some(v.minor) && ParseSegment(p.patch) == Some(v.patch)
    && ValidParts(v.prerelease, v.build) && p.tail == SuffixOf(v.prerelease, v.build)
  }

  lemma {:induction false} DenotesIff(str: string, v: Version)
    ensures Denotes(str, v) <==> Cut(str).Some? && PiecesDenote(Cut(str).value, v)
  {
    hide ParseSegment, SuffixOf, ValidParts, Cut, Starts;
    if Denotes(str, v) {
      var major, minor, patch :| DenotesWith(str, v, major, minor, patch);
      SegmentHasNoDot(major, v.major);
      SegmentHasNoDot(minor, v.minor);
      SegmentHasNoDot(patch, v.patch);
      SuffixStarts(v.prerelease, v.build);
      Associated(major, minor, patch, SuffixOf(v.prerelease, v.build));
      GluedCuts(Pieces(major, minor, patch, SuffixOf(v.prerelease, v.build)));
    }
    if Cut(str).Some? && PiecesDenote(Cut(str).value, v) {
      CutGlues(str);
      var p := Cut(str).value;
      Associated(p.major, p.minor, p.patch, p.tail);
      assert DenotesWith(str, v, p.major, p.minor, p.patch);
    }
  }

  lemma {:induction false} Associated(major: string, minor: string, patch: string, tail: string)
    ensures major + "." + minor + "." + patch + tail == Glued(Pieces(major, minor, patch, tail))
  {
  }

  /** The constructor from text accepts exactly the texts that denote a version, and makes that version. */
  method Parse(str: string) returns (r: Option<Version>)
    ensures forall v :: r == Some(v) <==> Denotes(str, v)
  {
    hide ParseSegment, SuffixOf, Index, IndexEither, ValidParts, Denotes;
    var dot1 := Index(str, '.');
    if dot1 == |str| {
      Denied(str);
      return None;
    }
    var major := ParseSegment(str[..dot1]);
    var rest := str[dot1 + 1..];
    var dot2 := Index(rest, '.');
    if major == None || dot2 == |rest| {
      Denied(str);
      return None;
    }
    var minor := ParseSegment(rest[..dot2]);
    rest := rest[dot2 + 1..];
    var end := IndexEither(rest, '-', '+');
    var patch := ParseSegment(rest[..end]);
    if minor == None || patch == None {
      Denied(str);
      return None;
    }
    var suffix := ParseSuffix(rest[end..]);
    if suffix == None {
      Denied(str);
      return None;
    }
    var v := Version(major.value, minor.value, patch.value, suffix.value.0, suffix.value.1);
    DenotesIff(str, v);
    forall w ensures Denotes(str, w) <==> w == v {
      if Denotes(str, w) {
        DenotesOne(str, v, w);
      }
    }
    r := Some(v);
  }

  ghost predicate HasSuffix(tail: string) {
    exists p, b :: ValidParts(p, b) && tail == SuffixOf(p, b)
  }

  /** A piece that stands for nothing. */
  lemma {:induction false} Denied(str: string)
    requires Cut(str).Some? ==>
               var p := Cut(str).value;
               ParseSegment(p.major) == None || ParseSegment(p.minor) == None || ParseSegment(p.patch) == None || !HasSuffix(p.tail)
    ensures forall v :: !Denotes(str, v)
  {
    forall v ensures !Denotes(str, v) {
      DenotesIff(str, v);
    }
  }

  // ---- what reading and writing keep ----

  /** A text stands for one version. */
  lemma {:induction false} DenotesOne(str: string, v: Version, w: Version)
    requires Denotes(str, v) && Denotes(str, w)
    ensures v == w
  {
    DenotesIff(str, v);
    DenotesIff(str, w);
    CutGlues(str);
    hide Cut, ParseSegment, Denotes, ValidIdentifiers;
    SuffixDenotesOne(Cut(str).value.tail, v.prerelease, v.build, w.prerelease, w.build);
  }

  lemma {:induction false} SuffixDenotesOne(tail: string, p: string, b: string, q: string, d: string)
    requires tail == SuffixOf(p, b) == SuffixOf(q, d) && ValidParts(p, b) && ValidParts(q, d)
    ensures p == q && b == d
  {
    SuffixStarts(p, b);
    SuffixStarts(q, d);
    if tail != "" && tail[0] == '+' {
      BuildOnly(tail);
    } else if tail != "" {
      assert tail == "-" + tail[1..];
      PrereleaseFirst(tail[1..]);
    }
  }

  lemma {:induction false} WrittenCuts(v: Version)
    ensures Cut(ToString(v)) == Some(Pieces(Digits(v.major), Digits(v.minor), Digits(v.patch), SuffixOf(v.prerelease, v.build)))
  {
    hide SuffixOf, Digits, Cut, Glued;
    SuffixStarts(v.prerelease, v.build);
    DigitsArePlain(v.major);
    DigitsArePlain(v.minor);
    DigitsArePlain(v.patch);
    Associated(Digits(v.major), Digits(v.minor), Digits(v.patch), SuffixOf(v.prerelease, v.build));
    GluedCuts(Pieces(Digits(v.major), Digits(v.minor), Digits(v.patch), SuffixOf(v.prerelease, v.build)));
  }

  lemma {:induction false} DigitsArePlain(n: nat)
    ensures Digits(n)[0] != '-' && '.' !in Digits(n) && '-' !in Digits(n) && '+' !in Digits(n)
  {
  }

  /** What is written is read back exactly when the numbers are of int and the identifiers valid. */
  lemma {:induction false} ReadsBackIff(v: Version)
    ensures Denotes(ToString(v), v) <==>
            v.major <= 0x7FFF_FFFF && v.minor <= 0x7FFF_FFFF && v.patch <= 0x7FFF_FFFF && ValidParts(v.prerelease, v.build)
  {
    WrittenCuts(v);
    DenotesIff(ToString(v), v);
    SegmentIff(Digits(v.major), v.major);
    SegmentIff(Digits(v.minor), v.minor);
    SegmentIff(Digits(v.patch), v.patch);
    assert IsDigit(Digits(v.major)[0]) && IsDigit(Digits(v.minor)[0]) && IsDigit(Digits(v.patch)[0]);
    hide Cut, ParseSegment, Denotes, Digits, ValidParts, SuffixOf;
  }

  /** What is read is written back exactly when neither the major nor the minor number has a sign. */
  lemma {:induction false} WritesBackIff(str: string, v: Version)
    requires Denotes(str, v)
    ensures Cut(str).Some? && Cut(str).value.major != "" && Cut(str).value.minor != ""
    ensures ToString(v) == str <==> Cut(str).value.major[0] != '-' && Cut(str).value.minor[0] != '-'
  {
    hide Cut, Denotes, Digits, ValidParts, SuffixOf, ParseSegment, ToString, Glued;
    DenotesIff(str, v);
    WrittenCuts(v);
    CutGlues(str);
    var p := Cut(str).value;
    SegmentIff(p.major, v.major);
    SegmentIff(p.minor, v.minor);
    SegmentIff(p.patch, v.patch);
    NoSigns(p.patch);
    DigitsArePlain(v.major);
    DigitsArePlain(v.minor);
    Associated(Digits(v.major), Digits(v.minor), Digits(v.patch), p.tail);
    WrittenIs(v);
  }

  lemma {:induction false} NoSigns(t: string)
    ensures '-' !in t && t != "" ==> t[0] != '-'
  {
  }

  lemma {:induction false} WrittenIs(v: Version)
    ensures ToString(v) == Digits(v.major) + "." + Digits(v.minor) + "." + Digits(v.patch) + SuffixOf(v.prerelease, v.build)
  {
  }
}
