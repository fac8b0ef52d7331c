/**
 * The static helpers of the shipment class: the Finnish bank reference
 * number (viitenumero) of an order, the text of a tracking status code, the
 * weight and volume of an order, the check of the receiver's address, the
 * tracking link and the default service.
 */
module Shipment {
  import opened Decimal

  // ---------------------------------------------------------------------
  // Invoice reference number (viitenumero)
  // ---------------------------------------------------------------------

  /** The largest PHP integer on a 64-bit build; `$id + 100` beyond it is a float. */
  const PhpIntMax: int := 9223372036854775807

  /** The weight of the digit at position i, counted from the right from 0: 7, 3, 1, 7, 3, 1, ... */
  function Weight(i: nat): (w: nat)
    ensures w == 7 || w == 3 || w == 1
  {
    if i % 3 == 0 then 7 else if i % 3 == 1 then 3 else 1
  }

  /** The weight table the source consumes digit by digit, least significant first. */
  const ReferenceWeights: seq<nat> := seq(19, i requires 0 <= i => Weight(i))

  /** The table written out is the source's nineteen entries. */
  lemma ReferenceWeightsTable()
    ensures ReferenceWeights == [7, 3, 1, 7, 3, 1, 7, 3, 1, 7, 3, 1, 7, 3, 1, 7, 3, 1, 7]
  {
  }

  /**
   * The sum of the digits of s times their weights, where the last digit of s
   * has weight Weight(k), the one before it Weight(k + 1), and so on.
   */
  function WeightedSumFrom(s: string, k: nat): nat
    requires AllDigits(s)
    decreases |s|
  {
    if s == [] then 0
    else DigitValue(s[|s| - 1]) * Weight(k) + WeightedSumFrom(s[..|s| - 1], k + 1)
  }

  /** The 7-3-1 weighted digit sum of a reference base, weights starting at the rightmost digit. */
  function WeightedSum(s: string): nat
    requires AllDigits(s)
  {
    WeightedSumFrom(s, 0)
  }

  /** The digit that brings a weighted sum up to the next multiple of ten. */
  function CheckDigit(sum: nat): (c: nat)
    ensures c < 10 && (sum + c) % 10 == 0
  {
    if sum % 10 == 0 then 0 else 10 - sum % 10
  }

  /** Whether s is a digit string whose last digit is the 7-3-1 check digit of the rest. */
  predicate IsValidReference(s: string) {
    && |s| >= 2
    && AllDigits(s)
    && (WeightedSum(s[..|s| - 1]) + DigitValue(s[|s| - 1])) % 10 == 0
  }

  /** The reference of order `id`: the decimal text of id + 100 and its check digit. */
  function Reference(id: int): (r: string)
    requires 0 <= id + 100 <= PhpIntMax
    ensures |r| >= 2 && IsDigit(r[|r| - 1])
  {
    var base := NatToString(id + 100);
    base + [DigitChar(CheckDigit(WeightedSum(base)))]
  }

  /** A digit in front of t carries the weight of the position it lands on. */
  lemma {:induction false} WeightedSumFromPrepend(c: char, t: string, k: nat)
    requires IsDigit(c) && AllDigits(t)
    ensures AllDigits([c] + t)
    ensures WeightedSumFrom([c] + t, k) == WeightedSumFrom(t, k) + DigitValue(c) * Weight(k + |t|)
    decreases |t|
  {
    var s := [c] + t;
    assert AllDigits(s) by {
      forall i | 0 <= i < |s| ensures IsDigit(s[i]) {
        if i > 0 { assert s[i] == t[i - 1]; }
      }
    }
    if t != [] {
      var t' := t[..|t| - 1];
      assert s[..|s| - 1] == [c] + t';
      assert s[|s| - 1] == t[|t| - 1];
      WeightedSumFromPrepend(c, t', k + 1);
    }
  }

  /** The suffix of s from k - 1 is character k - 1 in front of the suffix from k. */
  lemma SuffixCons(s: string, k: nat)
    requires 0 < k <= |s|
    ensures s[k - 1..] == [s[k - 1]] + s[k..]
  {
  }

  /** One more digit from the right adds that digit times the weight of its position. */
  lemma SuffixSumStep(base: string, i: nat)
    requires AllDigits(base) && i < |base|
    ensures WeightedSumFrom(base[|base| - (i + 1)..], 0)
         == WeightedSumFrom(base[|base| - i..], 0) + DigitValue(base[|base| - 1 - i]) * Weight(i)
  {
    var t := base[|base| - i..];
    SuffixCons(base, |base| - i);
    WeightedSumFromPrepend(base[|base| - 1 - i], t, 0);
  }

  /**
   * One pass of the loop in calculate_reference: the weight at the front of
   * the remaining table belongs to position i, and adding digit i (counted
   * from the right) times it extends the suffix sum by one digit.
   */
  lemma ReferenceStep(base: string, i: nat, sum: int, weights: seq<nat>)
    requires AllDigits(base) && i < |base| <= 19
    requires weights == ReferenceWeights[i..]
    requires sum == WeightedSumFrom(base[|base| - i..], 0)
    ensures |weights| > 0 && weights[1..] == ReferenceWeights[i + 1..]
    ensures IsDigit(Reversed(base)[i])
    ensures sum + DigitValue(Reversed(base)[i]) * weights[0] == WeightedSumFrom(base[|base| - (i + 1)..], 0)
  {
    ReversedAt(base, i);
    assert weights[0] == Weight(i);
    SuffixSumStep(base, i);
  }

  /** s read backwards. */
  function Reversed(s: string): (r: string)
    ensures |r| == |s|
  {
    if s == [] then [] else [s[|s| - 1]] + Reversed(s[..|s| - 1])
  }

  /** Position i of the reversed string is position |s| - 1 - i of the original. */
  lemma {:induction false} ReversedAt(s: string, i: nat)
    requires i < |s|
    ensures Reversed(s)[i] == s[|s| - 1 - i]
    decreases |s|
  {
    if i > 0 {
      ReversedAt(s[..|s| - 1], i - 1);
    }
  }

  /** Every base the source can be given has at most 19 digits, so the table never runs out. */
  lemma BaseLength(id: int)
    requires 0 <= id + 100 <= PhpIntMax
    ensures |NatToString(id + 100)| <= 19
    ensures id >= 0 ==> |NatToString(id + 100)| >= 3
  {
    Pow10Values();
    var n: nat := id + 100;
    assert n < Pow10(19);
    NatToStringLength(n, 19);
    assert |NatToString(n)| <= 19;
    NatToStringLength(n, 2);
  }

  /**
   * calculate_reference: sums the digits of id + 100 from the right against
   * the weight table, taking one weight off its front per digit.
   */
  method CalculateReference(id: int) returns (reference: string)
    requires 0 <= id + 100 <= PhpIntMax
    ensures reference == Reference(id)
  {
    var weights := ReferenceWeights;
    var base := NatToString(id + 100);
    var reversedBase := Reversed(base);
    BaseLength(id);

    var sum: int := 0;
    var i := 0;
    while i < |reversedBase|
      invariant 0 <= i <= |reversedBase| == |base|
      invariant weights == ReferenceWeights[i..]
      invariant sum == WeightedSumFrom(base[|base| - i..], 0)
    {
      ReferenceStep(base, i, sum, weights);
      var coefficient := weights[0];
      weights := weights[1..];
      sum := sum + DigitValue(reversedBase[i]) * coefficient;
      i := i + 1;
    }
    assert base[|base| - i..] == base;

    var checksum := if sum % 10 == 0 then 0 else 10 - sum % 10;
    reference := base + [DigitChar(checksum)];
  }

  /** The reference is the base digits, unchanged and in order, then exactly one digit. */
  lemma ReferenceShape(id: int)
    requires 0 <= id + 100 <= PhpIntMax
    ensures |Reference(id)| == |NatToString(id + 100)| + 1
    ensures Reference(id)[..|Reference(id)| - 1] == NatToString(id + 100)
    ensures ParseDigits(Reference(id)[..|Reference(id)| - 1]) == id + 100
    ensures AllDigits(Reference(id))
    ensures |Reference(id)| <= 20
    ensures id >= 0 ==> |Reference(id)| >= 4
  {
    var base := NatToString(id + 100);
    var r := Reference(id);
    assert r[..|r| - 1] == base;
    ParseNatToString(id + 100);
    BaseLength(id);
  }

  /** The last digit is the only digit that completes the weighted sum to a multiple of ten. */
  lemma CheckDigitUnique(sum: nat, d: nat)
    requires d < 10 && (sum + d) % 10 == 0
    ensures d == CheckDigit(sum)
  {
  }

  /** Every reference passes the 7-3-1 check, and its check digit is the unique one that does. */
  lemma ReferenceIsValid(id: int)
    requires 0 <= id + 100 <= PhpIntMax
    ensures IsValidReference(Reference(id))
    ensures DigitValue(Reference(id)[|Reference(id)| - 1]) == CheckDigit(WeightedSum(NatToString(id + 100)))
  {
    ReferenceShape(id);
    var base := NatToString(id + 100);
    var r := Reference(id);
    assert r[..|r| - 1] == base;
    assert DigitValue(r[|r| - 1]) == CheckDigit(WeightedSum(base));
  }

  /** Different orders get different references. */
  lemma ReferenceInjective(a: int, b: int)
    requires 0 <= a + 100 <= PhpIntMax && 0 <= b + 100 <= PhpIntMax
    requires Reference(a) == Reference(b)
    ensures a == b
  {
    ReferenceShape(a);
    ReferenceShape(b);
  }

  /** Replacing the digit at index j of s changes the weighted sum by the weight at that index. */
  lemma {:induction false} WeightedSumFromUpdate(s: string, k: nat, j: nat, c: char)
    requires AllDigits(s) && j < |s| && IsDigit(c)
    ensures AllDigits(s[j := c])
    ensures WeightedSumFrom(s[j := c], k) + DigitValue(s[j]) * Weight(k + |s| - 1 - j)
         == WeightedSumFrom(s, k) + DigitValue(c) * Weight(k + |s| - 1 - j)
    decreases |s|
  {
    var t := s[j := c];
    assert AllDigits(t) by {
      forall i | 0 <= i < |t| ensures IsDigit(t[i]) {
        if i != j { assert t[i] == s[i]; }
      }
    }
    if j < |s| - 1 {
      assert t[..|t| - 1] == s[..|s| - 1][j := c];
      WeightedSumFromUpdate(s[..|s| - 1], k + 1, j, c);
    } else {
      assert t[..|t| - 1] == s[..|s| - 1];
    }
  }

  /** A 7, 3 or 1 times a non-zero digit difference is never a multiple of ten. */
  lemma WeightedDifferenceNonZero(w: nat, x: nat, y: nat)
    requires w == 7 || w == 3 || w == 1
    requires x < 10 && y < 10 && x != y
    ensures (x * w - y * w) % 10 != 0
  {
    var d := x - y;
    assert x * w - y * w == d * w;
    assert -9 <= d <= 9 && d != 0;
    if w == 7 {
      assert d * w == 7 * d;
    } else if w == 3 {
      assert d * w == 3 * d;
    }
  }

  /** Adding a multiple of ten does not change the last decimal digit. */
  lemma ShiftByMultipleOfTen(a: int, d: int)
    requires a % 10 == 0
    ensures (a + d) % 10 == d % 10
  {
    var q := a / 10;
    assert a == 10 * q;
    assert (10 * q + d) % 10 == d % 10;
  }

  /** The 7-3-1 check catches every mistyped single digit of the base. */
  lemma {:induction false} ReferenceDetectsSingleDigitError(s: string, j: nat, c: char)
    requires IsValidReference(s)
    requires j < |s| - 1 && IsDigit(c) && c != s[j]
    ensures !IsValidReference(s[j := c])
  {
    var base := s[..|s| - 1];
    var t := s[j := c];
    assert base[j] == s[j];
    assert t[..|t| - 1] == base[j := c];
    assert t[|t| - 1] == s[|s| - 1];
    var w := Weight(|base| - 1 - j);
    var x: int, y: int := DigitValue(c), DigitValue(s[j]);
    assert x != y by {
      assert DigitChar(x) == c && DigitChar(y) == s[j];
    }
    WeightedSumFromUpdate(base, 0, j, c);
    WeightedDifferenceNonZero(w, x, y);
    var last := DigitValue(s[|s| - 1]);
    var before := WeightedSum(base) + last;
    var after := WeightedSum(base[j := c]) + last;
    assert after == before + (x * w - y * w);
    ShiftByMultipleOfTen(before, x * w - y * w);
    assert after % 10 != 0;
  }

  /** Order 12345 has base 12445 and reference 124452. */
  lemma ReferenceExample()
    ensures Reference(12345) == "124452"
  {
    assert NatToString(12445) == "12445";
    assert "12445"[..4] == "1244" && "1244"[..3] == "124" && "124"[..2] == "12" && "12"[..1] == "1";
    assert WeightedSumFrom("1", 4) == 3;
    assert WeightedSumFrom("12", 3) == 14 + 3;
    assert WeightedSumFrom("124", 2) == 4 + 17;
    assert WeightedSumFrom("1244", 1) == 12 + 21;
    assert WeightedSum("12445") == 35 + 33;
  }

  // ---------------------------------------------------------------------
  // Tracking status text
  // ---------------------------------------------------------------------

  const KnownStatusCodes: set<int> := {13, 20, 22, 31, 38, 45, 48, 56, 68, 71, 77, 91, 99}

  const UnknownStatusPrefix: string := "Unknown status: "

  predicate HasUnknownStatusPrefix(text: string) {
    && |text| >= |UnknownStatusPrefix|
    && text[..|UnknownStatusPrefix|] == UnknownStatusPrefix
  }

  /** A text shorter than the prefix, or starting with another letter, is not the fallback. */
  lemma NotUnknownStatus(t: string)
    requires |t| < |UnknownStatusPrefix| || t[0] != 'U'
    ensures !HasUnknownStatusPrefix(t)
  {
    if |t| >= |UnknownStatusPrefix| {
      assert t[..|UnknownStatusPrefix|][0] == t[0];
    }
  }

  /**
   * get_status_text: the phrase of a known status code, and for every other
   * integer the fallback that embeds the code's decimal text.
   */
  function StatusText(code: int): string {
    match code
    case 13 => "Item is collected from sender - picked up"
    case 20 => "Exception"
    case 22 => "Item has been handed over to the recipient"
    case 31 => "Item is in transport"
    case 38 => "C.O.D payment is paid to the sender"
    case 45 => "Informed consignee of arrival"
    case 48 => "Item is loaded onto a means of transport"
    case 56 => "Item not delivered – delivery attempt made"
    case 68 => "Pre-information is received from sender"
    case 71 => "Item is ready for delivery transportation"
    case 77 => "Item is returning to the sender"
    case 91 => "Item is arrived to a post office"
    case 99 => "Outbound"
    case _ => UnknownStatusPrefix + IntToString(code)
  }

  /** A known code gives its phrase, never the fallback; any other code gives the fallback with its decimal text. */
  lemma StatusTextShape(code: int)
    ensures code in KnownStatusCodes <==> !HasUnknownStatusPrefix(StatusText(code))
    ensures code !in KnownStatusCodes ==> StatusText(code)[|UnknownStatusPrefix|..] == IntToString(code)
  {
    var t := StatusText(code);
    match code
    case 13 => assert t[0] == 'I'; NotUnknownStatus(t);
    case 20 => assert |t| == 9; NotUnknownStatus(t);
    case 22 => assert t[0] == 'I'; NotUnknownStatus(t);
    case 31 => assert t[0] == 'I'; NotUnknownStatus(t);
    case 38 => assert t[0] == 'C'; NotUnknownStatus(t);
    case 45 => assert t[0] == 'I'; NotUnknownStatus(t);
    case 48 => assert t[0] == 'I'; NotUnknownStatus(t);
    case 56 => assert t[0] == 'I'; NotUnknownStatus(t);
    case 68 => assert t[0] == 'P'; NotUnknownStatus(t);
    case 71 => assert t[0] == 'I'; NotUnknownStatus(t);
    case 77 => assert t[0] == 'I'; NotUnknownStatus(t);
    case 91 => assert t[0] == 'I'; NotUnknownStatus(t);
    case 99 => assert |t| == 8; NotUnknownStatus(t);
    case _ => assert t[..|UnknownStatusPrefix|] == UnknownStatusPrefix;
  }

  /** No two status codes share a text: the code can be recovered from what is shown. */
  lemma StatusTextInjective(a: int, b: int)
    requires StatusText(a) == StatusText(b)
    ensures a == b
  {
    var t := StatusText(a);
    if a in KnownStatusCodes && b in KnownStatusCodes {
      KnownStatusTextInjective(a, b);
    } else {
      StatusTextShape(a);
      StatusTextShape(b);
      if a !in KnownStatusCodes && b !in KnownStatusCodes {
        assert t[|UnknownStatusPrefix|..] == IntToString(a) == IntToString(b);
        IntToStringInjective(a, b);
      }
    }
  }

  /** The length of each known phrase; only 13 and 71, and 22 and 56, share one. */
  lemma KnownStatusTextLength(c: int)
    requires c in KnownStatusCodes
    ensures |StatusText(c)| == (match c
      case 13 => 41 case 20 => 9 case 22 => 42 case 31 => 20 case 38 => 35 case 45 => 29
      case 48 => 40 case 56 => 42 case 68 => 39 case 71 => 41 case 77 => 31 case 91 => 32
      case _ => 8)
  {
  }

  lemma KnownStatusTextInjective(a: int, b: int)
    requires a in KnownStatusCodes && b in KnownStatusCodes
    requires StatusText(a) == StatusText(b)
    ensures a == b
  {
    KnownStatusTextLength(a);
    KnownStatusTextLength(b);
    if a == 13 || a == 71 {
      assert StatusText(a)[8] == StatusText(b)[8];
    } else if a == 22 || a == 56 {
      assert StatusText(a)[5] == StatusText(b)[5];
    }
  }

  lemma StatusTextUnknownExample()
    ensures StatusText(999999) == "Unknown status: 999999"
  {
    assert NatToString(999999) == "999999";
  }

  // ---------------------------------------------------------------------
  // Order weight and volume
  // ---------------------------------------------------------------------

  /**
   * One line of an order, with the product fields the source looks up folded
   * in. A product id of 0 or less stands for a line with no product.
   */
  datatype OrderItem = OrderItem(
    productId: int,
    qty: int,
    isVirtual: bool,
    weight: real,
    width: real,
    height: real,
    length: real)

  /** Whether a line is shipped: it has a product and the product is not virtual. */
  predicate Ships(item: OrderItem) {
    item.productId > 0 && !item.isVirtual
  }

  /** The shipped lines of an order, in order, each as many times as it occurs. */
  function Shipped(items: seq<OrderItem>): (r: seq<OrderItem>)
    ensures forall x :: x in r <==> x in items && Ships(x)
  {
    if items == [] then []
    else (if Ships(items[0]) then [items[0]] else []) + Shipped(items[1..])
  }

  /** A shipped line is kept as many times as it occurs; every other line is dropped. */
  lemma {:induction false} ShippedCounts(items: seq<OrderItem>)
    ensures forall x :: multiset(Shipped(items))[x] == (if Ships(x) then multiset(items)[x] else 0)
  {
    if items != [] {
      assert items == [items[0]] + items[1..];
      ShippedCounts(items[1..]);
    }
  }

  function ItemWeight(item: OrderItem): real {
    if Ships(item) then item.weight * item.qty as real else 0.0
  }

  /** The weight of an order: weight times quantity, summed over the shipped lines. */
  function TotalWeight(items: seq<OrderItem>): real {
    if items == [] then 0.0 else ItemWeight(items[0]) + TotalWeight(items[1..])
  }

  lemma {:induction false} TotalWeightConcat(a: seq<OrderItem>, b: seq<OrderItem>)
    ensures TotalWeight(a + b) == TotalWeight(a) + TotalWeight(b)
    decreases |a|
  {
    if a != [] {
      assert (a + b)[0] == a[0];
      assert (a + b)[1..] == a[1..] + b;
      TotalWeightConcat(a[1..], b);
      assert TotalWeight(a + b) == ItemWeight(a[0]) + TotalWeight(a[1..] + b);
    } else {
      assert a + b == b;
    }
  }

  /** order_weight: accumulates weight times quantity over the shipped lines, in order. */
  method OrderWeight(items: seq<OrderItem>) returns (weight: real)
    ensures weight == TotalWeight(items)
  {
    weight := 0.0;
    if |items| > 0 {
      for i := 0 to |items|
        invariant weight == TotalWeight(items[..i])
      {
        var item := items[i];
        assert items[..i + 1] == items[..i] + [item];
        TotalWeightConcat(items[..i], [item]);
        if item.productId > 0 {
          if !item.isVirtual {
            weight := weight + item.weight * item.qty as real;
          }
        }
      }
      assert items[..|items|] == items;
    }
  }

  /** Lines without a product and virtual products weigh nothing; an empty order weighs 0. */
  lemma {:induction false} TotalWeightOnlyShipped(items: seq<OrderItem>)
    ensures TotalWeight(items) == TotalWeight(Shipped(items))
    ensures (forall i :: 0 <= i < |items| ==> !Ships(items[i])) ==> TotalWeight(items) == 0.0
  {
    if items != [] {
      TotalWeightOnlyShipped(items[1..]);
      var head := if Ships(items[0]) then [items[0]] else [];
      TotalWeightConcat(head, Shipped(items[1..]));
      if forall i :: 0 <= i < |items| ==> !Ships(items[i]) {
        assert forall i :: 0 <= i < |items[1..]| ==> !Ships(items[1..][i]) by {
          forall i | 0 <= i < |items[1..]| ensures !Ships(items[1..][i]) {
            assert items[1..][i] == items[i + 1];
          }
        }
      }
    }
  }

  lemma {:induction false} TotalWeightNonNegative(items: seq<OrderItem>)
    requires forall i :: 0 <= i < |items| ==> items[i].weight >= 0.0 && items[i].qty >= 0
    ensures TotalWeight(items) >= 0.0
  {
    if items != [] {
      assert forall i :: 0 <= i < |items[1..]| ==> items[1..][i] == items[i + 1];
      TotalWeightNonNegative(items[1..]);
    }
  }

  /** ASCII lower case, as strtolower leaves every other character alone. */
  function LowerChar(c: char): char {
    if 'A' <= c <= 'Z' then (c as int + 32) as char else c
  }

  function ToLower(s: string): (r: string)
    ensures |r| == |s|
    ensures forall i :: 0 <= i < |s| ==> r[i] == LowerChar(s[i])
  {
    if s == [] then [] else [LowerChar(s[0])] + ToLower(s[1..])
  }

  /** The factor that takes a length in the shop's dimension unit to metres. */
  function DimMultiplier(unit: string): (m: real)
    ensures m == 0.001 || m == 0.01 || m == 0.1 || m == 1.0
    ensures ToLower(unit) == "mm" ==> m == 0.001
    ensures ToLower(unit) == "cm" ==> m == 0.01
    ensures ToLower(unit) == "dm" ==> m == 0.1
    ensures m == 1.0 <==> ToLower(unit) !in {"mm", "cm", "dm"}
  {
    var u := ToLower(unit);
    if u == "mm" then 0.001 else if u == "cm" then 0.01 else if u == "dm" then 0.1 else 1.0
  }

  /** A shipped line's volume when one unit of its dimensions is m metres. */
  function ItemVolume(item: OrderItem, m: real): real {
    if Ships(item) then m * m * m * item.width * item.height * item.length * item.qty as real else 0.0
  }

  /** The volume of an order, summed over the shipped lines, with dimensions in units of m metres. */
  function VolumeAt(items: seq<OrderItem>, m: real): real {
    if items == [] then 0.0 else ItemVolume(items[0], m) + VolumeAt(items[1..], m)
  }

  /** The volume of an order in cubic metres, the shop's dimension unit being `unit`. */
  function TotalVolume(items: seq<OrderItem>, unit: string): real {
    VolumeAt(items, DimMultiplier(unit))
  }

  lemma {:induction false} VolumeAtConcat(a: seq<OrderItem>, b: seq<OrderItem>, m: real)
    ensures VolumeAt(a + b, m) == VolumeAt(a, m) + VolumeAt(b, m)
    decreases |a|
  {
    if a != [] {
      assert (a + b)[0] == a[0];
      assert (a + b)[1..] == a[1..] + b;
      VolumeAtConcat(a[1..], b, m);
      assert VolumeAt(a + b, m) == ItemVolume(a[0], m) + VolumeAt(a[1..] + b, m);
    } else {
      assert a + b == b;
    }
  }

  /**
   * order_volume: normalises each shipped line's dimensions to metres and
   * accumulates the product of the three and the quantity.
   */
  method OrderVolume(items: seq<OrderItem>, dimensionUnit: string) returns (volume: real)
    ensures volume == TotalVolume(items, dimensionUnit)
  {
    volume := 0.0;
    if |items| > 0 {
      for i := 0 to |items|
        invariant volume == VolumeAt(items[..i], DimMultiplier(dimensionUnit))
      {
        var item := items[i];
        assert items[..i + 1] == items[..i] + [item];
        VolumeAtConcat(items[..i], [item], DimMultiplier(dimensionUnit));
        if item.productId > 0 {
          if !item.isVirtual {
            var dimMultiplier := DimMultiplier(dimensionUnit);
            volume := volume + dimMultiplier * dimMultiplier * dimMultiplier * item.width
              * item.height * item.length * item.qty as real;
          }
        }
      }
      assert items[..|items|] == items;
    }
  }

  /** Lines without a product and virtual products take no room; an empty order has volume 0. */
  lemma {:induction false} VolumeAtOnlyShipped(items: seq<OrderItem>, m: real)
    ensures VolumeAt(items, m) == VolumeAt(Shipped(items), m)
    ensures (forall i :: 0 <= i < |items| ==> !Ships(items[i])) ==> VolumeAt(items, m) == 0.0
  {
    if items != [] {
      VolumeAtOnlyShipped(items[1..], m);
      var head := if Ships(items[0]) then [items[0]] else [];
      VolumeAtConcat(head, Shipped(items[1..]), m);
      if forall i :: 0 <= i < |items| ==> !Ships(items[i]) {
        assert forall i :: 0 <= i < |items[1..]| ==> !Ships(items[1..][i]) by {
          forall i | 0 <= i < |items[1..]| ensures !Ships(items[1..][i]) {
            assert items[1..][i] == items[i + 1];
          }
        }
      }
    }
  }

  lemma TotalVolumeOnlyShipped(items: seq<OrderItem>, unit: string)
    ensures TotalVolume(items, unit) == TotalVolume(Shipped(items), unit)
    ensures (forall i :: 0 <= i < |items| ==> !Ships(items[i])) ==> TotalVolume(items, unit) == 0.0
  {
    VolumeAtOnlyShipped(items, DimMultiplier(unit));
  }

  /** With a non-negative factor, sides and quantities, the volume is non-negative. */
  lemma {:induction false} VolumeAtNonNegative(items: seq<OrderItem>, m: real)
    requires m >= 0.0
    requires forall i :: 0 <= i < |items| ==>
               items[i].width >= 0.0 && items[i].height >= 0.0 && items[i].length >= 0.0 && items[i].qty >= 0
    ensures VolumeAt(items, m) >= 0.0
    decreases |items|
  {
    if items != [] {
      assert forall i :: 0 <= i < |items[1..]| ==> items[1..][i] == items[i + 1];
      VolumeAtNonNegative(items[1..], m);
      var it := items[0];
      if Ships(it) {
        var q := it.qty as real;
        assert m * m >= 0.0;
        assert m * m * m >= 0.0;
        assert m * m * m * it.width >= 0.0;
        assert m * m * m * it.width * it.height >= 0.0;
        assert m * m * m * it.width * it.height * it.length >= 0.0;
        assert m * m * m * it.width * it.height * it.length * q >= 0.0;
      }
    }
  }

  /** With non-negative sides and quantities, the volume in any unit is non-negative. */
  lemma TotalVolumeNonNegative(items: seq<OrderItem>, unit: string)
    requires forall i :: 0 <= i < |items| ==>
               items[i].width >= 0.0 && items[i].height >= 0.0 && items[i].length >= 0.0 && items[i].qty >= 0
    ensures TotalVolume(items, unit) >= 0.0
  {
    VolumeAtNonNegative(items, DimMultiplier(unit));
  }

  /** An item with its three dimensions multiplied by f. */
  function ScaleItem(item: OrderItem, f: real): OrderItem {
    item.(width := f * item.width, height := f * item.height, length := f * item.length)
  }

  function ScaleDimensions(items: seq<OrderItem>, f: real): (r: seq<OrderItem>)
    ensures |r| == |items|
  {
    if items == [] then [] else [ScaleItem(items[0], f)] + ScaleDimensions(items[1..], f)
  }

  /** The unit only contributes the cube of its factor to metres. */
  lemma {:induction false} VolumeAtCube(items: seq<OrderItem>, m: real)
    ensures VolumeAt(items, m) == m * m * m * VolumeAt(items, 1.0)
    decreases |items|
  {
    if items != [] {
      VolumeAtCube(items[1..], m);
      var it := items[0];
      if Ships(it) {
        var raw := it.width * it.height * it.length * it.qty as real;
        assert ItemVolume(it, m) == m * m * m * raw;
        assert ItemVolume(it, 1.0) == raw;
      }
    }
  }

  lemma TotalVolumeInMetres(items: seq<OrderItem>, unit: string)
    ensures TotalVolume(items, unit) == DimMultiplier(unit) * DimMultiplier(unit) * DimMultiplier(unit) * TotalVolume(items, "m")
  {
    assert ToLower("m") == "m";
    VolumeAtCube(items, DimMultiplier(unit));
  }

  /** Measuring an item's sides in a unit f times smaller is the same as a multiplier f times larger. */
  lemma ItemVolumeOfScaled(it: OrderItem, f: real, m: real)
    ensures ItemVolume(ScaleItem(it, f), m) == ItemVolume(it, f * m)
  {
    var s := ScaleItem(it, f);
    if Ships(it) {
      var w, h, l, q := it.width, it.height, it.length, it.qty as real;
      calc {
        ItemVolume(s, m);
        m * m * m * (f * w) * (f * h) * (f * l) * q;
        { assert m * m * m * (f * w) == (m * m * m * f) * w; }
        (m * m * m * f) * w * (f * h) * (f * l) * q;
        { assert (m * m * m * f) * w * (f * h) == (m * m * m * f * f) * w * h; }
        (m * m * m * f * f) * w * h * (f * l) * q;
        { assert (m * m * m * f * f) * w * h * (f * l) == (m * m * m * f * f * f) * w * h * l; }
        (m * m * m * f * f * f) * w * h * l * q;
        { assert m * m * m * f * f * f == (f * m) * (f * m) * (f * m); }
        (f * m) * (f * m) * (f * m) * w * h * l * q;
        ItemVolume(it, f * m);
      }
    }
  }

  /** Dimensions stated f times larger, in a unit f times smaller, give the same volume. */
  lemma {:induction false} VolumeAtOfScaled(items: seq<OrderItem>, f: real, m: real)
    ensures VolumeAt(ScaleDimensions(items, f), m) == VolumeAt(items, f * m)
    decreases |items|
  {
    var scaled := ScaleDimensions(items, f);
    if items != [] {
      var it, rest := items[0], ScaleDimensions(items[1..], f);
      VolumeAtOfScaled(items[1..], f, m);
      ItemVolumeOfScaled(it, f, m);
      assert scaled == [ScaleItem(it, f)] + rest;
      assert scaled[0] == ScaleItem(it, f) && scaled[1..] == rest;
    } else {
      assert scaled == [];
    }
  }

  /** The unit is compared case-insensitively: "MM", "Mm" and "mm" all mean millimetres. */
  lemma DimMultiplierIgnoresCase(unit: string)
    ensures DimMultiplier(unit) == DimMultiplier(ToLower(unit))
  {
    var u := ToLower(unit);
    assert ToLower(u) == u by {
      forall i | 0 <= i < |u| ensures ToLower(u)[i] == u[i] {
        assert LowerChar(LowerChar(unit[i])) == LowerChar(unit[i]);
      }
    }
  }

  /** The same parcel measured in centimetres or in millimetres has the same volume in cubic metres. */
  lemma CentimetresAsMillimetres(items: seq<OrderItem>)
    ensures TotalVolume(ScaleDimensions(items, 10.0), "mm") == TotalVolume(items, "cm")
  {
    assert ToLower("mm") == "mm";
    assert ToLower("cm") == "cm";
    VolumeAtOfScaled(items, 10.0, 0.001);
  }

  /** The same parcel measured in decimetres or in centimetres has the same volume in cubic metres. */
  lemma DecimetresAsCentimetres(items: seq<OrderItem>)
    ensures TotalVolume(ScaleDimensions(items, 10.0), "cm") == TotalVolume(items, "dm")
  {
    assert ToLower("cm") == "cm";
    assert ToLower("dm") == "dm";
    VolumeAtOfScaled(items, 10.0, 0.01);
  }

  /** The same parcel measured in metres or in decimetres has the same volume in cubic metres. */
  lemma MetresAsDecimetres(items: seq<OrderItem>)
    ensures TotalVolume(ScaleDimensions(items, 10.0), "dm") == TotalVolume(items, "m")
  {
    assert ToLower("dm") == "dm";
    assert ToLower("m") == "m";
    VolumeAtOfScaled(items, 10.0, 0.1);
  }

  /** Two of one 0.5 x 0.4 x 0.3 cm item make 1.2e-7 cubic metres. */
  lemma TotalVolumeExample()
    ensures TotalVolume([OrderItem(1, 2, false, 0.0, 0.5, 0.4, 0.3)], "cm") == 0.00000012
  {
    assert ToLower("cm") == "cm";
  }

  // ---------------------------------------------------------------------
  // Receiver, tracking link, default service
  // ---------------------------------------------------------------------

  /** The shipping fields of an order that the receiver check looks at. */
  datatype ShippingReceiver = ShippingReceiver(
    fullName: string,
    address1: string,
    address2: string,
    postcode: string,
    city: string,
    country: string)

  /** PHP's empty() on a string: the empty string and "0". */
  predicate PhpEmpty(s: string) {
    s == "" || s == "0"
  }

  /**
   * validate_order_shipping_receiver: name, postcode, city and country are all
   * filled in, and so is at least one of the two address lines.
   */
  function ValidateOrderShippingReceiver(r: ShippingReceiver): (valid: bool)
    ensures valid <==>
              && (forall f :: f in [r.fullName, r.postcode, r.city, r.country] ==> !PhpEmpty(f))
              && (exists a :: a in [r.address1, r.address2] && !PhpEmpty(a))
  {
    var noName := PhpEmpty(r.fullName);
    var noAddress := PhpEmpty(r.address1) && PhpEmpty(r.address2);
    var noPostcode := PhpEmpty(r.postcode);
    var noCity := PhpEmpty(r.city);
    var noCountry := PhpEmpty(r.country);
    !(noName || noAddress || noPostcode || noCity || noCountry)
  }

  const TrackingUrlPrefix: string := "https://pakettikauppa.fi/seuranta/?"

  /** tracking_url: the tracking page with the code as its query; the service is not used. */
  function TrackingUrl<S>(serviceId: S, trackingCode: string): (url: string)
    ensures |url| == |TrackingUrlPrefix| + |trackingCode|
    ensures url[..|TrackingUrlPrefix|] == TrackingUrlPrefix
    ensures url[|TrackingUrlPrefix|..] == trackingCode
  {
    TrackingUrlPrefix + trackingCode
  }

  /** Two links are equal only for the same tracking code, whichever services they name. */
  lemma TrackingUrlRecoversCode<S>(s1: S, s2: S, a: string, b: string)
    requires TrackingUrl(s1, a) == TrackingUrl(s2, b)
    ensures a == b
  {
    assert a == TrackingUrl(s1, a)[|TrackingUrlPrefix|..];
  }

  /** get_default_service: the same service code whatever the post and the order. */
  function DefaultService<P, O>(post: P, order: O): (service: string)
    ensures service == "2103"
  {
    "2103"
  }
}
