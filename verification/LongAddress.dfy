/** Long addresses as text: six upper-case hexadecimal digits, and the way back. */
module LongAddress {
  import opened Addressing

  function LowerDigit(d: nat): char
    requires d < 16
  {
    if d < 10 then '0' + d as char else 'a' + (d - 10) as char
  }

  function UpperChar(c: char): char {
    if 'a' <= c <= 'f' then (c as int - 32) as char else c
  }

  function Upper(s: string): (r: string)
    ensures |r| == |s| && forall i | 0 <= i < |s| :: r[i] == UpperChar(s[i])
  {
    seq(|s|, i requires 0 <= i < |s| => UpperChar(s[i]))
  }

  /** The shortest representation in base 16. */
  function ToChars(n: nat): (s: string)
    ensures |s| > 0
  {
    if n < 16 then [LowerDigit(n)] else ToChars(n / 16) + [LowerDigit(n % 16)]
  }

  /** The last `w` digits. */
  function FixedHex(n: nat, w: nat): (s: string)
    ensures |s| == w
  {
    if w == 0 then "" else FixedHex(n / 16, w - 1) + [LowerDigit(n % 16)]
  }

  function Zeros(k: nat): (s: string)
    ensures |s| == k && forall i | 0 <= i < k :: s[i] == '0'
  {
    seq(k, _ => '0')
  }

  function Power16(w: nat): (p: nat)
    ensures p >= 1
  {
    if w == 0 then 1 else 16 * Power16(w - 1)
  }

  lemma {:induction false} ZerosThenDigits(n: nat, w: nat)
    requires n < Power16(w) && w > 0
    ensures |ToChars(n)| <= w && FixedHex(n, w) == Zeros(w - |ToChars(n)|) + ToChars(n)
    decreases w
  {
    if n < 16 {
      ZeroDigits(w - 1);
    } else {
      ZerosThenDigits(n / 16, w - 1);
    }
  }

  lemma {:induction false} ZeroDigits(w: nat)
    ensures FixedHex(0, w) == Zeros(w)
    decreases w
  {
    if w > 0 {
      ZeroDigits(w - 1);
    }
  }

  function Printed(addr: nat): (s: string)
    ensures |s| == 6
  {
    Upper(FixedHex(addr % SPACE, 6))
  }

  /** Prints the low 24 bits into a buffer: the digits are put at its start, moved to its end, padded and raised. */
  method LongAddressToString(addr: nat) returns (result: array<char>)
    ensures fresh(result) && result[..] == Printed(addr) + ['\0']
  {
    var digits := ToChars(addr % SPACE);
    PrintedIs(addr);
    hide ToChars, Printed, Upper, Zeros;
    result := new char[7](_ => '\0');
    CopyDigits(result, digits);
    if |digits| < 6 {
      MoveBackward(result, |digits|);
      Fill(result, 6 - |digits|);
    }
    PaddedIs(result[..], digits);
    Raise(result);
    RaisedIs(result[..], Printed(addr));
    result[6] := '\0';
    EndedIs(result[..], Printed(addr));
  }

  lemma PaddedIs(text: string, digits: string)
    requires |text| == 7 && |digits| <= 6
    requires forall i | 0 <= i < 6 - |digits| :: text[i] == '0'
    requires forall i | 0 <= i < |digits| :: text[6 - |digits| + i] == digits[i]
    ensures text[..6] == Zeros(6 - |digits|) + digits
  {
    forall k | 6 - |digits| <= k < 6 ensures text[k] == digits[k - (6 - |digits|)] {
      assert text[6 - |digits| + (k - (6 - |digits|))] == digits[k - (6 - |digits|)];
    }
  }

  lemma RaisedIs(text: string, printed: string)
    requires |text| == 7 && text[..6] == printed
    ensures forall i | 0 <= i < 6 :: text[i] == printed[i]
  {
    assert forall i | 0 <= i < 6 :: text[..6][i] == text[i];
  }

  lemma EndedIs(text: string, printed: string)
    requires |text| == 7 && |printed| == 6 && (forall i | 0 <= i < 6 :: text[i] == printed[i]) && text[6] == '\0'
    ensures text == printed + ['\0']
  {
  }

  lemma PrintedIs(addr: nat)
    ensures var digits := ToChars(addr % SPACE);
            |digits| <= 6 && Printed(addr) == Upper(Zeros(6 - |digits|) + digits)
  {
    assert SPACE == Power16(6);
    ZerosThenDigits(addr % SPACE, 6);
  }

  method CopyDigits(buffer: array<char>, digits: string)
    requires buffer.Length == 7 && |digits| <= 6
    modifies buffer
    ensures forall i | 0 <= i < |digits| :: buffer[i] == digits[i]
  {
    for i := 0 to |digits|
      invariant forall k | 0 <= k < i :: buffer[k] == digits[k]
    {
      buffer[i] := digits[i];
    }
  }

  method Fill(buffer: array<char>, count: nat)
    requires buffer.Length == 7 && count <= 6
    modifies buffer
    ensures forall i | 0 <= i < 7 :: buffer[i] == if i < count then '0' else old(buffer[i])
  {
    for i := 0 to count
      invariant forall k | 0 <= k < 7 :: buffer[k] == if k < i then '0' else old(buffer[k])
    {
      buffer[i] := '0';
    }
  }

  /** Moves the first `len` characters to the end of the first six, the last one first. */
  method MoveBackward(buffer: array<char>, len: nat)
    requires buffer.Length == 7 && len < 6
    modifies buffer
    ensures forall i | 0 <= i < len :: buffer[6 - len + i] == old(buffer[i])
  {
    var k := len;
    while k > 0
      invariant 0 <= k <= len
      invariant forall i | 0 <= i < k :: buffer[i] == old(buffer[i])
      invariant forall i | k <= i < len :: buffer[6 - len + i] == old(buffer[i])
    {
      k := k - 1;
      buffer[6 - len + k] := buffer[k];
    }
  }

  method Raise(buffer: array<char>)
    requires buffer.Length == 7
    modifies buffer
    ensures buffer[..6] == Upper(old(buffer[..6]))
  {
    for i := 0 to 6
      invariant forall k | 0 <= k < i :: buffer[k] == UpperChar(old(buffer[k]))
      invariant forall k | i <= k < 7 :: buffer[k] == old(buffer[k])
    {
      if 'a' <= buffer[i] <= 'f' {
        buffer[i] := (buffer[i] as int - ('a' as int - 'A' as int)) as char;
      }
    }
  }

  // ------------------------------------------------------------------ reading

  function DigitValue(c: char): Option<nat> {
    if '0' <= c <= '9' then Some(c as nat - '0' as nat)
    else if 'a' <= c <= 'f' then Some(c as nat - 'a' as nat + 10)
    else if 'A' <= c <= 'F' then Some(c as nat - 'A' as nat + 10)
    else None
  }

  predicate AllHex(s: string) {
    forall i | 0 <= i < |s| :: DigitValue(s[i]).Some?
  }

  function ValueOf(s: string): nat
    requires AllHex(s)
  {
    if s == "" then 0 else 16 * ValueOf(s[..|s| - 1]) + DigitValue(s[|s| - 1]).value
  }

  /** Reads up to six hexadecimal digits of either case; anything else, or nothing at all, is refused. */
  function StringToLongAddress(s: string): Option<nat> {
    if |s| > 6 then None
    else if s != "" && AllHex(s) then Some(ValueOf(s))
    else None
  }

  lemma {:induction false} ReadsPrinted(n: nat, w: nat)
    requires n < Power16(w)
    ensures AllHex(Upper(FixedHex(n, w))) && ValueOf(Upper(FixedHex(n, w))) == n
    decreases w
  {
    if w > 0 {
      ReadsPrinted(n / 16, w - 1);
      var s := Upper(FixedHex(n, w));
      assert s[..w - 1] == Upper(FixedHex(n / 16, w - 1));
      assert DigitValue(s[w - 1]) == Some(n % 16);
      assert forall i | 0 <= i < w - 1 :: s[i] == s[..w - 1][i];
    }
  }

  /** Printing and reading gives back the low 24 bits of any address. */
  lemma PrintThenRead(addr: nat)
    ensures StringToLongAddress(Printed(addr)) == Some(addr % SPACE)
  {
    assert SPACE == Power16(6);
    ReadsPrinted(addr % SPACE, 6);
  }

  lemma LastDigit(s: string)
    requires s != "" && AllHex(s)
    ensures var k := |s| - 1;
            && AllHex(s[..k]) && DigitValue(s[k]).Some? && DigitValue(s[k]).value < 16
            && ValueOf(s) / 16 == ValueOf(s[..k]) && ValueOf(s) % 16 == DigitValue(s[k]).value
            && UpperChar(LowerDigit(DigitValue(s[k]).value)) == UpperChar(s[k])
  {
  }

  lemma {:induction false} PrintsRead(s: string, w: nat)
    requires |s| <= w && AllHex(s)
    ensures ValueOf(s) < Power16(|s|)
    ensures Upper(FixedHex(ValueOf(s), w)) == Zeros(w - |s|) + Upper(s)
    decreases |s|
  {
    hide UpperChar, LowerDigit, DigitValue, AllHex;
    if s == "" {
      ZeroDigits(w);
      RaisedZeros(w);
    } else {
      var k := |s| - 1;
      LastDigit(s);
      PrintsRead(s[..k], w - 1);
      assert Upper(FixedHex(ValueOf(s), w)) == Upper(FixedHex(ValueOf(s[..k]), w - 1)) + [UpperChar(s[k])];
    }
  }

  lemma RaisedZeros(w: nat)
    ensures Upper(Zeros(w)) == Zeros(w)
  {
  }

  lemma {:induction false} PowersGrow(v: nat, w: nat)
    requires v <= w
    ensures Power16(v) <= Power16(w)
    decreases w
  {
    if v < w {
      PowersGrow(v, w - 1);
    }
  }

  lemma ReadIsShort(s: string)
    requires |s| <= 6 && AllHex(s)
    ensures ValueOf(s) < SPACE
  {
    hide ValueOf;
    PrintsRead(s, 6);
    PowersGrow(|s|, 6);
    assert SPACE == Power16(6);
  }

  /** Reading succeeds exactly on one to six hexadecimal digits, and printing what was read pads and raises them. */
  lemma ReadThenPrint(s: string)
    ensures StringToLongAddress(s).Some? <==> 1 <= |s| <= 6 && AllHex(s)
    ensures StringToLongAddress(s).Some? ==>
              && StringToLongAddress(s).value < SPACE
              && Printed(StringToLongAddress(s).value) == Zeros(6 - |s|) + Upper(s)
  {
    hide Power16, FixedHex, ValueOf, Upper, AllHex, Zeros;
    if StringToLongAddress(s).Some? {
      ReadIsShort(s);
      PrintsRead(s, 6);
    }
  }
}
