/**
 Versions: reading and writing them, and their order, against SemVer 2.0.0. Characters are compared by
 their codes.
 */
module Semver {
  import opened Results
  import opened Decimal
  import opened TextSearch

  /** The three numbers are of unsigned int. */
  datatype Version = Version(major: nat, minor: nat, patch: nat, prerelease: string, build: string)

  const INT_MAX: nat := 0x7FFF_FFFF
  const ULL_END: nat := 0x1_0000_0000_0000_0000

  // ---- identifiers ----

  /** The stretches between dots, but for an empty one at the very end. */
  function Identifiers(s: string): seq<string>
    decreases |s|, 1
  {
    if s == "" then []
    else
      var dot := Index(s, '.');
      [s[..dot]] + IdentifiersAfter(s, dot)
  }

  /** The identifiers behind a dot, or behind the end. */
  function IdentifiersAfter(s: string, dot: nat): seq<string>
    requires dot <= |s|
    decreases |s|, 0
  {
    if dot == |s| then [] else Identifiers(s[dot + 1..])
  }

  predicate IdentifierChar(c: char) {
    IsDigit(c) || 'A' <= c <= 'Z' || 'a' <= c <= 'z' || c == '-'
  }

  lemma {:induction false} IdentifierCharIff(c: char)
    ensures IdentifierChar(c) <==> c in "-0123456789" || c in "ABCDEFGHIJKLMNOPQRSTUVWXYZ" || c in "abcdefghijklmnopqrstuvwxyz"
  {
  }

  predicate ValidIdentifier(id: string) {
    && id != "" && (forall k :: 0 <= k < |id| ==> IdentifierChar(id[k]))
    && !(|id| > 1 && AllDigits(id) && id[0] == '0')
  }

  predicate ValidIdentifiers(field: string) {
    field != "" && AllValid(Identifiers(field))
  }

  lemma {:induction false} IdentifiersHead(s: string)
    requires s != ""
    ensures var dot := Index(s, '.');
            Identifiers(s) == [s[..dot]] + IdentifiersAfter(s, dot)
  {
  }

  lemma {:induction false} IdentifiersOfRest(s: string, from: nat)
    requires from < |s|
    ensures var d := Index(s[from..], '.');
            Identifiers(s[from..]) == [s[from..][..d]] + IdentifiersAfter(s, from + d)
  {
  }

  lemma {:induction false} IdentifiersUpTo(s: string, from: nat)
    requires from < |s|
    ensures var dot := from + Index(s[from..], '.');
            Identifiers(s[from..]) == [s[from..dot]] + IdentifiersAfter(s, dot)
  {
    hide *;
    IdentifiersOfRest(s, from);
    SliceOfRest(s, from, Index(s[from..], '.'));
  }

  /** The identifiers from a place in the field on. */
  lemma {:induction false} IdentifiersFrom(s: string, from: nat)
    requires from < |s|
    ensures var dot := Find(s, '.', from);
            Identifiers(s[from..]) == [s[from..dot]] + IdentifiersAfter(s, dot)
  {
    hide *;
    IdentifiersUpTo(s, from);
    FindIsIndex(s, '.', from);
  }

  /** validate_identifiers. */
  method Validate(field: string) returns (ok: bool)
    ensures ok == ValidIdentifiers(field)
  {
    if |field| == 0 {
      return false;
    }
    var begin := 0;
    assert field[0..] == field;
    hide ValidIdentifier, ValidFrom;
    while begin != |field|
      invariant 0 <= begin <= |field|
      invariant ValidIdentifiers(field) <==> ValidFrom(field, begin)
      decreases |field| - begin
    {
      var dot := Find(field, '.', begin);
      ValidityFrom(field, begin);
      var valid := CheckIdentifier(field, begin, dot);
      if !valid {
        return false;
      }
      if dot == |field| {
        break;
      }
      begin := dot + 1;
    }
    ValidAtEnd(field);
    ok := true;
  }

  ghost predicate ValidFrom(field: string, from: nat)
    requires from <= |field|
  {
    AllValid(Identifiers(field[from..]))
  }

  lemma {:induction false} ValidityFrom(field: string, from: nat)
    requires from < |field|
    ensures var dot := Find(field, '.', from);
            ValidFrom(field, from) <==> ValidIdentifier(field[from..dot]) && (dot < |field| ==> ValidFrom(field, dot + 1))
  {
    assert AllValid([]);
    hide ValidIdentifier, Identifiers, Find, AllValid;
    var dot := Find(field, '.', from);
    var rest := IdentifiersAfter(field, dot);
    IdentifiersFrom(field, from);
    AllValidHead(field[from..dot], rest);
    assert AllValid(rest) <==> (dot < |field| ==> ValidFrom(field, dot + 1));
  }

  lemma {:induction false} ValidAtEnd(field: string)
    ensures ValidFrom(field, |field|)
  {
  }

  method CheckIdentifier(field: string, begin: nat, dot: nat) returns (ok: bool)
    requires begin <= dot <= |field|
    ensures ok == ValidIdentifier(field[begin..dot])
  {
    ghost var id := field[begin..dot];
    if begin == dot {
      return false;
    }
    var k := begin;
    while k < dot
      invariant begin <= k <= dot && forall m :: 0 <= m < k - begin ==> IdentifierChar(id[m])
    {
      if !IdentifierChar(field[k]) {
        assert id[k - begin] == field[k];
        return false;
      }
      k := k + 1;
    }
    if dot - begin > 1 && field[begin] == '0' {
      var digits := AreDigits(field, begin + 1, dot);
      assert id == [field[begin]] + field[begin + 1..dot];
      DigitsAfter(field[begin], field[begin + 1..dot]);
      return !digits;
    }
    ok := true;
  }

  lemma {:induction false} DigitsAfter(c: char, rest: string)
    requires IsDigit(c)
    ensures AllDigits([c] + rest) <==> AllDigits(rest)
  {
    var all := [c] + rest;
    if AllDigits(all) {
      forall k | 0 <= k < |rest| ensures IsDigit(rest[k]) {
        assert IsDigit(all[k + 1]);
      }
    }
  }

  predicate AllValid(ids: seq<string>) {
    forall k :: 0 <= k < |ids| ==> ValidIdentifier(ids[k])
  }

  lemma {:induction false} AllValidHead(id: string, rest: seq<string>)
    ensures AllValid([id] + rest) <==> ValidIdentifier(id) && AllValid(rest)
  {
    var all := [id] + rest;
    if AllValid(all) {
      assert ValidIdentifier(all[0]);
      forall k | 0 <= k < |rest| ensures ValidIdentifier(rest[k]) {
        assert ValidIdentifier(all[k + 1]);
      }
    }
  }

  method AreDigits(s: string, from: nat, to: nat) returns (ok: bool)
    requires from <= to <= |s|
    ensures ok == AllDigits(s[from..to])
  {
    var k := from;
    while k < to
      invariant from <= k <= to && AllDigits(s[from..k])
    {
      if !IsDigit(s[k]) {
        assert s[from..to][k - from] == s[k];
        return false;
      }
      assert s[from..k + 1] == s[from..k] + [s[k]];
      k := k + 1;
    }
    ok := true;
  }
}
