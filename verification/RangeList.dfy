/**
 Lists of numbers and ranges, as in "0-3, 7": what parse_range_list accepts, and the numbers it makes.
 */
module RangeList {
  import opened Results
  import opened Decimal

  const UINT_MAX: nat := 0xFFFF_FFFF

  datatype RangeError = Overflow | InvalidValue | InvalidEnd | Reversed | TooLarge | ExpectedComma

  // ---- the grammar ----

  predicate IsSpace(c: char) {
    c <= ' '
  }

  lemma {:induction false} SpaceIff(c: char)
    ensures IsSpace(c) <==> c as int <= 32
  {
  }

  predicate AllSpace(s: string) {
    forall k :: 0 <= k < |s| ==> IsSpace(s[k])
  }

  /** A number of unsigned int: digits, leading zeros allowed. */
  predicate Numeral(s: string) {
    s != "" && AllDigits(s) && Value(s) <= 0xFFFF_FFFF
  }

  datatype Item =
    | Single(number: string)
    | Span(first: string, gap1: string, gap2: string, last: string)

  /** Items between commas, with white space around them and perhaps a comma at the end. */
  datatype List =
    | Nothing(space: string)
    | Last(before: string, item: Item, after: string)
    | More(before: string, item: Item, after: string, rest: List)

  predicate ItemAllowed(item: Item) {
    match item
    case Single(n) => Numeral(n)
    case Span(m, g, h, n) =>
      Numeral(m) && AllSpace(g) && AllSpace(h) && Numeral(n) && Value(m) <= Value(n) && !(Value(m) == 0 && Value(n) == 0xFFFF_FFFF)
  }

  predicate Allowed(l: List) {
    match l
    case Nothing(s) => AllSpace(s)
    case Last(b, i, a) => AllSpace(b) && ItemAllowed(i) && AllSpace(a)
    case More(b, i, a, rest) => AllSpace(b) && ItemAllowed(i) && AllSpace(a) && Allowed(rest)
  }

  function ItemText(item: Item): string {
    match item
    case Single(n) => n
    case Span(m, g, h, n) => m + (g + ("-" + (h + n)))
  }

  function Text(l: List): string {
    match l
    case Nothing(s) => s
    case Last(b, i, a) => b + (ItemText(i) + a)
    case More(b, i, a, rest) => b + (ItemText(i) + (a + ("," + Text(rest))))
  }

  /** The numbers from one to another, in order. */
  function Numbers(from: nat, to: nat): seq<nat> {
    if from > to then [] else seq(to - from + 1, k requires 0 <= k => from + k)
  }

  function ItemNumbers(item: Item): seq<nat>
    requires ItemAllowed(item)
  {
    match item
    case Single(n) => [Value(n)]
    case Span(m, _, _, n) => Numbers(Value(m), Value(n))
  }

  function Expansion(l: List): seq<nat>
    requires Allowed(l)
  {
    match l
    case Nothing(_) => []
    case Last(_, i, _) => ItemNumbers(i)
    case More(_, i, _, rest) => ItemNumbers(i) + Expansion(rest)
  }

  // ---- the parser on what is left of the text ----

  function SkipSpace(s: string): (r: string)
    ensures |r| <= |s| && (r != "" ==> !IsSpace(r[0]))
  {
    if s != "" && IsSpace(s[0]) then SkipSpace(s[1..]) else s
  }

  /** The digits a number begins with. */
  function DigitCount(s: string): (n: nat)
    ensures n <= |s| && AllDigits(s[..n])
  {
    if s != "" && IsDigit(s[0]) then 1 + DigitCount(s[1..]) else 0
  }

  datatype Number = NumberThen(value: nat, rest: string)

  /** from_chars into unsigned int. */
  function TakeNumber(s: string, invalid: RangeError): Result<Number, RangeError> {
    var n := DigitCount(s);
    if n == 0 then Failure(invalid)
    else if Value(s[..n]) > UINT_MAX then Failure(Overflow)
    else Success(NumberThen(Value(s[..n]), s[n..]))
  }

  datatype Bounds = BoundsThen(first: nat, last: nat, rest: string)

  /** One number or range, and what follows it. */
  function TakeItem(s: string): Result<Bounds, RangeError> {
    var start :- TakeNumber(s, InvalidValue);
    var t := SkipSpace(start.rest);
    if t != "" && t[0] == '-' then
      var finish :- TakeNumber(SkipSpace(t[1..]), InvalidEnd);
      if finish.value < start.value then Failure(Reversed)
      else if start.value == 0 && finish.value == UINT_MAX then Failure(TooLarge)
      else Success(BoundsThen(start.value, finish.value, SkipSpace(finish.rest)))
    else Success(BoundsThen(start.value, start.value, t))
  }

  lemma {:induction false} ItemsShrink(s: string)
    ensures TakeItem(s).Success? ==> |TakeItem(s).value.rest| < |s|
    ensures TakeItem(s).Success? ==> TakeItem(s).value.first <= TakeItem(s).value.last <= UINT_MAX
  {
  }

  function ParseList(s: string): Result<seq<nat>, RangeError>
    decreases |s|
  {
    var t := SkipSpace(s);
    if t == "" then Success([])
    else
      var b :- TakeItem(t);
      ItemsShrink(t);
      if b.rest == "" then Success(Numbers(b.first, b.last))
      else if b.rest[0] != ',' then Failure(ExpectedComma)
      else
        var more :- ParseList(b.rest[1..]);
        Success(Numbers(b.first, b.last) + more)
  }

  // ---- stretches of space and digits ----

  lemma {:induction false} SpaceSkipped(space: string, rest: string)
    requires AllSpace(space) && (rest != "" ==> !IsSpace(rest[0]))
    ensures SkipSpace(space + rest) == rest
  {
    if space == "" {
      assert space + rest == rest;
    } else {
      assert (space + rest)[1..] == space[1..] + rest;
      SpaceSkipped(space[1..], rest);
    }
  }

  lemma {:induction false} MoreSpace(c: char, tail: string)
    requires IsSpace(c) && AllSpace(tail)
    ensures AllSpace([c] + tail)
  {
  }

  lemma {:induction false} SpaceFound(s: string) returns (space: string)
    ensures AllSpace(space) && s == space + SkipSpace(s)
  {
    if s != "" && IsSpace(s[0]) {
      var tail := SpaceFound(s[1..]);
      space := [s[0]] + tail;
      hide AllSpace;
      MoreSpace(s[0], tail);
      assert s == [s[0]] + (tail + SkipSpace(s[1..]));
    } else {
      space := "";
    }
  }

  lemma {:induction false} DigitsCounted(digits: string, rest: string)
    requires AllDigits(digits) && (rest != "" ==> !IsDigit(rest[0]))
    ensures DigitCount(digits + rest) == |digits|
  {
    if digits == "" {
      assert digits + rest == rest;
    } else {
      assert (digits + rest)[1..] == digits[1..] + rest;
      DigitsCounted(digits[1..], rest);
    }
  }

  lemma {:induction false} NumberTaken(digits: string, rest: string, invalid: RangeError)
    requires Numeral(digits) && (rest != "" ==> !IsDigit(rest[0]))
    ensures TakeNumber(digits + rest, invalid) == Success(NumberThen(Value(digits), rest))
  {
    DigitsCounted(digits, rest);
    assert (digits + rest)[..|digits|] == digits && (digits + rest)[|digits|..] == rest;
  }

  lemma {:induction false} NumberFound(s: string, invalid: RangeError) returns (digits: string)
    requires TakeNumber(s, invalid).Success?
    ensures Numeral(digits) && TakeNumber(s, invalid) == Success(NumberThen(Value(digits), TakeNumber(s, invalid).value.rest))
    ensures s == digits + TakeNumber(s, invalid).value.rest
  {
    digits := s[..DigitCount(s)];
  }

  lemma {:induction false} HeadOf(a: string, b: string)
    ensures a != "" ==> a + b != "" && (a + b)[0] == a[0]
    ensures a == "" ==> a + b == b
  {
  }

  // ---- the parser accepts exactly the grammar ----

  lemma {:induction false} SpanTaken(m: string, g: string, h: string, n: string, a: string, rest: string)
    requires ItemAllowed(Span(m, g, h, n)) && AllSpace(a) && (rest != "" ==> rest[0] == ',')
    ensures TakeItem(m + (g + ("-" + (h + (n + (a + rest)))))) == Success(BoundsThen(Value(m), Value(n), rest))
  {
    var tail := a + rest;
    var dashed := "-" + (h + (n + tail));
    HeadOf(a, rest);
    HeadOf(g, dashed);
    HeadOf(n, tail);
    assert dashed[0] == '-' && dashed[1..] == h + (n + tail);
    hide SkipSpace, TakeNumber, Value;
    NumberTaken(m, g + dashed, InvalidValue);
    SpaceSkipped(g, dashed);
    SpaceSkipped(h, n + tail);
    NumberTaken(n, tail, InvalidEnd);
    SpaceSkipped(a, rest);
  }

  lemma {:induction false} SingleTaken(n: string, a: string, rest: string)
    requires Numeral(n) && AllSpace(a) && (rest != "" ==> rest[0] == ',')
    ensures TakeItem(n + (a + rest)) == Success(BoundsThen(Value(n), Value(n), rest))
  {
    hide SkipSpace, TakeNumber, Value;
    HeadOf(a, rest);
    NumberTaken(n, a + rest, InvalidValue);
    SpaceSkipped(a, rest);
  }

  lemma {:induction false} ItemTaken(i: Item, a: string, rest: string)
    requires ItemAllowed(i) && AllSpace(a) && (rest != "" ==> rest[0] == ',')
    ensures var s := ItemText(i) + (a + rest);
            && s != "" && !IsSpace(s[0]) && TakeItem(s).Success?
            && Numbers(TakeItem(s).value.first, TakeItem(s).value.last) == ItemNumbers(i) && TakeItem(s).value.rest == rest
  {
    hide TakeItem, Value;
    match i {
      case Single(n) =>
        SingleTaken(n, a, rest);
        HeadOf(n, a + rest);
      case Span(m, g, h, n) =>
        SpanTaken(m, g, h, n, a, rest);
        Regrouped(m, g, h, n, a + rest);
        HeadOf(m, g + ("-" + (h + (n + (a + rest)))));
    }
  }

  lemma {:induction false} Regrouped(m: string, g: string, h: string, n: string, tail: string)
    ensures (m + (g + ("-" + (h + n)))) + tail == m + (g + ("-" + (h + (n + tail))))
  {
  }

  lemma {:induction false} AllowedParses(l: List)
    requires Allowed(l)
    ensures ParseList(Text(l)) == Success(Expansion(l))
    decreases l
  {
    hide TakeItem, SkipSpace, ItemAllowed, ItemText, Numbers, ItemNumbers, AllSpace;
    match l {
      case Nothing(s) =>
        assert s + "" == s;
        SpaceSkipped(s, "");
        ParseNothing(s);
      case Last(b, i, a) =>
        assert a + "" == a;
        ItemTaken(i, a, "");
        SpaceSkipped(b, ItemText(i) + a);
        ParseOne(Text(l), ItemText(i) + a);
      case More(b, i, a, rest) =>
        var tail := "," + Text(rest);
        assert tail[0] == ',' && tail[1..] == Text(rest);
        ItemTaken(i, a, tail);
        SpaceSkipped(b, ItemText(i) + (a + tail));
        AllowedParses(rest);
        ParseOne(Text(l), ItemText(i) + (a + tail));
    }
  }

  lemma {:induction false} ParseNothing(s: string)
    requires SkipSpace(s) == ""
    ensures ParseList(s) == Success([])
  {
  }

  lemma {:induction false} ParseOne(s: string, t: string)
    requires SkipSpace(s) == t != "" && TakeItem(t).Success?
    ensures var b := TakeItem(t).value;
            && (b.rest == "" ==> ParseList(s) == Success(Numbers(b.first, b.last)))
            && (b.rest != "" && b.rest[0] != ',' ==> ParseList(s) == Failure(ExpectedComma))
            && (b.rest != "" && b.rest[0] == ',' ==>
                  ParseList(s) == match ParseList(b.rest[1..])
                                  case Failure(e) => Failure(e)
                                  case Success(more) => Success(Numbers(b.first, b.last) + more))
  {
  }

  lemma {:induction false} ItemFound(s: string) returns (i: Item, a: string)
    requires TakeItem(s).Success?
    ensures var b := TakeItem(s).value;
            && ItemAllowed(i) && AllSpace(a) && s == ItemText(i) + (a + b.rest)
            && ItemNumbers(i) == Numbers(b.first, b.last)
  {
    hide SkipSpace, Value, TakeNumber;
    var m := NumberFound(s, InvalidValue);
    var afterFirst := TakeNumber(s, InvalidValue).value.rest;
    var g := SpaceFound(afterFirst);
    var t := SkipSpace(afterFirst);
    if t != "" && t[0] == '-' {
      var behind := SkipSpace(t[1..]);
      var h := SpaceFound(t[1..]);
      var n := NumberFound(behind, InvalidEnd);
      var afterLast := TakeNumber(behind, InvalidEnd).value.rest;
      a := SpaceFound(afterLast);
      i := Span(m, g, h, n);
      assert t == "-" + t[1..];
      Regrouped(m, g, h, n, a + SkipSpace(afterLast));
    } else {
      i, a := Single(m), g;
      assert Numbers(Value(m), Value(m)) == [Value(m)];
    }
  }

  lemma {:induction false} ParsedIsAllowed(s: string) returns (l: List)
    requires ParseList(s).Success?
    ensures Allowed(l) && Text(l) == s && Success(Expansion(l)) == ParseList(s)
    decreases |s|
  {
    hide TakeItem, SkipSpace, Numbers, ItemAllowed, ItemText, ItemNumbers, AllSpace;
    var b := SpaceFound(s);
    var t := SkipSpace(s);
    if t == "" {
      l := Nothing(b);
      assert b + "" == b;
    } else {
      var i, a := ItemFound(t);
      var rest := TakeItem(t).value.rest;
      ParseOne(s, t);
      ItemsShrink(t);
      if rest == "" {
        l := Last(b, i, a);
        assert a + "" == a;
      } else {
        var more := ParsedIsAllowed(rest[1..]);
        l := More(b, i, a, more);
        assert rest == "," + rest[1..];
      }
    }
  }

  /** The parser makes a list of numbers exactly when the text is of the grammar and they are its expansion. */
  lemma {:induction false} ParseIff(s: string, numbers: seq<nat>)
    ensures ParseList(s) == Success(numbers) <==> exists l :: Allowed(l) && Text(l) == s && Expansion(l) == numbers
  {
    hide ParseList, Allowed, Text, Expansion;
    if ParseList(s) == Success(numbers) {
      var l := ParsedIsAllowed(s);
      assert Allowed(l) && Text(l) == s && Expansion(l) == numbers;
    }
    forall l | Allowed(l) && Text(l) == s ensures ParseList(s) == Success(Expansion(l)) {
      AllowedParses(l);
    }
  }

  // ---- printing ----

  datatype Range = Range(first: nat, last: nat)

  predicate Printable(r: Range) {
    r.first <= r.last <= 0xFFFF_FFFF && !(r.first == 0 && r.last == 0xFFFF_FFFF)
  }

  /** "first-last" for each range, or the one number, between commas. */
  function Print(ranges: seq<Range>): string {
    if ranges == [] then ""
    else
      var r := ranges[0];
      var item := if r.first == r.last then Digits(r.first) else Digits(r.first) + "-" + Digits(r.last);
      if |ranges| == 1 then item else item + "," + Print(ranges[1..])
  }

  function NumbersOf(ranges: seq<Range>): seq<nat> {
    if ranges == [] then [] else Numbers(ranges[0].first, ranges[0].last) + NumbersOf(ranges[1..])
  }

  function ItemOf(r: Range): Item {
    if r.first == r.last then Single(Digits(r.first)) else Span(Digits(r.first), "", "", Digits(r.last))
  }

  lemma {:induction false} ItemOfRange(r: Range)
    requires Printable(r)
    ensures ItemAllowed(ItemOf(r)) && ItemNumbers(ItemOf(r)) == Numbers(r.first, r.last)
    ensures ItemText(ItemOf(r)) == if r.first == r.last then Digits(r.first) else Digits(r.first) + "-" + Digits(r.last)
  {
    ValueOfDigits(r.first);
    ValueOfDigits(r.last);
  }

  lemma {:induction false} PrintedAs(ranges: seq<Range>) returns (l: List)
    requires forall k :: 0 <= k < |ranges| ==> Printable(ranges[k])
    ensures Allowed(l) && Text(l) == Print(ranges) && Expansion(l) == NumbersOf(ranges)
  {
    hide ItemAllowed, ItemText, ItemNumbers, Numbers, ItemOf;
    if ranges == [] {
      l := Nothing("");
    } else {
      var i := ItemOf(ranges[0]);
      ItemOfRange(ranges[0]);
      if |ranges| == 1 {
        l := Last("", i, "");
        assert Text(l) == ItemText(i);
        assert NumbersOf(ranges[1..]) == [];
      } else {
        var more := PrintedAs(ranges[1..]);
        l := More("", i, "", more);
        assert Text(l) == ItemText(i) + ("," + Text(more));
        assert ItemText(i) + ("," + Text(more)) == ItemText(i) + "," + Text(more);
      }
    }
  }

  /** Printing and parsing gives the numbers back. */
  lemma {:induction false} PrintedParses(ranges: seq<Range>)
    requires forall k :: 0 <= k < |ranges| ==> Printable(ranges[k])
    ensures ParseList(Print(ranges)) == Success(NumbersOf(ranges))
  {
    hide ParseList, Allowed, Text, Expansion, Print, NumbersOf, Printable;
    var l := PrintedAs(ranges);
    AllowedParses(l);
  }

  // ---- the loop ----

  method SkipWhitespace(text: string) returns (rest: string)
    ensures rest == SkipSpace(text)
  {
    rest := text;
    while rest != "" && IsSpace(rest[0])
      invariant SkipSpace(rest) == SkipSpace(text)
      decreases |rest|
    {
      rest := rest[1..];
    }
  }

  /** The count of a range is computed in unsigned arithmetic, and does not wrap. */
  method AppendNumbers(result: seq<nat>, start: nat, finish: nat) returns (r: seq<nat>)
    requires start <= finish <= UINT_MAX && !(start == 0 && finish == UINT_MAX)
    ensures r == result + Numbers(start, finish)
  {
    var n := (finish - start + 1) % (UINT_MAX + 1);
    assert n == finish - start + 1;
    r := result;
    var j := 0;
    while j < n
      invariant 0 <= j <= n && r == result + Numbers(start, finish)[..j]
    {
      r := r + [(start + j) % (UINT_MAX + 1)];
      j := j + 1;
    }
    assert Numbers(start, finish)[..n] == Numbers(start, finish);
  }

  function After(done: seq<nat>, rest: Result<seq<nat>, RangeError>): Result<seq<nat>, RangeError> {
    match rest
    case Failure(e) => Failure(e)
    case Success(more) => Success(done + more)
  }

  /** parse_range_list: text is what the pointer has still before it. */
  method ParseRangeList(s: string) returns (r: Result<seq<nat>, RangeError>)
    ensures r == ParseList(s)
  {
    hide Numbers, Value, SkipSpace, TakeNumber;
    var result: seq<nat> := [];
    var text := s;
    AfterNothing(s);
    while text != ""
      invariant ParseList(s) == After(result, ParseList(text))
      decreases |text|
    {
      var t := SkipWhitespace(text);
      if t == "" {
        ParseNothing(text);
        text := t;
        break;
      }
      ParseStep(text, t, result);
      var start :- TakeNumber(t, InvalidValue);
      var u := SkipWhitespace(start.rest);
      if u != "" && u[0] == '-' {
        u := SkipWhitespace(u[1..]);
        var finish :- TakeNumber(u, InvalidEnd);
        if finish.value < start.value {
          return Failure(Reversed);
        }
        if start.value == 0 && finish.value == UINT_MAX {
          return Failure(TooLarge);
        }
        ItemsShrink(t);
        result := AppendNumbers(result, start.value, finish.value);
        u := finish.rest;
      } else {
        JustOne(start.value);
        NoSpaceToSkip(u);
        result := result + [start.value];
      }
      u := SkipWhitespace(u);
      ItemsShrink(t);
      if u != "" {
        if u[0] != ',' {
          return Failure(ExpectedComma);
        }
        u := u[1..];
      }
      text := u;
      NothingMore(result);
    }
    NothingMore(result);
    r := Success(result);
  }

  lemma {:induction false} NoSpaceToSkip(s: string)
    requires s != "" ==> !IsSpace(s[0])
    ensures SkipSpace(s) == s
  {
  }

  lemma {:induction false} NothingMore(done: seq<nat>)
    ensures After(done, ParseList("")) == Success(done)
  {
    assert done + [] == done;
  }

  lemma {:induction false} AfterNothing(s: string)
    ensures ParseList(s) == After([], ParseList(s))
    ensures ParseList("") == Success([])
  {
    assert ParseList(s).Success? ==> [] + ParseList(s).value == ParseList(s).value;
  }

  lemma {:induction false} JustOne(n: nat)
    ensures Numbers(n, n) == [n]
  {
  }

  /** One turn of the loop against one step of the grammar. */
  lemma {:induction false} ParseStep(text: string, t: string, result: seq<nat>)
    requires t == SkipSpace(text) != ""
    ensures match TakeItem(t)
            case Failure(e) => After(result, ParseList(text)) == Failure(e)
            case Success(b) =>
              var done := result + Numbers(b.first, b.last);
              After(result, ParseList(text)) == (
                if b.rest == "" then Success(done)
                else if b.rest[0] != ',' then Failure(ExpectedComma)
                else After(done, ParseList(b.rest[1..])))
  {
    hide TakeItem, SkipSpace, Numbers, ParseList;
    if TakeItem(t).Success? {
      ParseOne(text, t);
      var b := TakeItem(t).value;
      if b.rest != "" && b.rest[0] == ',' && ParseList(b.rest[1..]).Success? {
        var more := ParseList(b.rest[1..]).value;
        assert result + (Numbers(b.first, b.last) + more) == (result + Numbers(b.first, b.last)) + more;
      }
    } else {
      ParseFails(text, t);
    }
  }

  lemma {:induction false} ParseFails(s: string, t: string)
    requires SkipSpace(s) == t != "" && TakeItem(t).Failure?
    ensures ParseList(s) == Failure(TakeItem(t).error)
  {
  }
}
