/** Byte classes and scans over byte strings: the pieces the source's regular expressions,
    `strings.ToLower` and `strings.SplitN` are built from. */
module Text {
  import opened Common

  predicate IsUpper(b: byte) { 'A' <= b <= 'Z' }
  predicate IsLower(b: byte) { 'a' <= b <= 'z' }
  predicate IsDigit(b: byte) { '0' <= b <= '9' }
  predicate IsLetter(b: byte) { IsUpper(b) || IsLower(b) }
  predicate IsAlnum(b: byte) { IsLetter(b) || IsDigit(b) }

  /** The bracket expressions that occur in the source's patterns. */
  datatype Class =
    | UsernameClass   // [a-zA-Z0-9_-]
    | LocalPartClass  // [a-zA-Z0-9._%+-]
    | DomainClass     // [a-zA-Z0-9.-]
    | LetterClass     // [a-zA-Z]
    | UpperClass      // [A-Z]
    | LowerClass      // [a-z]
    | DigitClass      // [0-9]

  predicate InClass(b: byte, k: Class) {
    match k
    case UsernameClass => IsAlnum(b) || b == '_' || b == '-'
    case LocalPartClass => IsAlnum(b) || b == '.' || b == '_' || b == '%' || b == '+' || b == '-'
    case DomainClass => IsAlnum(b) || b == '.' || b == '-'
    case LetterClass => IsLetter(b)
    case UpperClass => IsUpper(b)
    case LowerClass => IsLower(b)
    case DigitClass => IsDigit(b)
  }

  /** Every byte of `s` is in class `k` (the pattern `^[k]*$`). */
  function AllIn(s: Bytes, k: Class): (r: bool)
    ensures r <==> forall i :: 0 <= i < |s| ==> InClass(s[i], k)
  {
    if s == [] then true else InClass(s[0], k) && AllIn(s[1..], k)
  }

  /** Some byte of `s` is in class `k` (an unanchored search for `[k]`). */
  function AnyIn(s: Bytes, k: Class): (r: bool)
    ensures r <==> exists i :: 0 <= i < |s| && InClass(s[i], k)
  {
    if s == [] then false else InClass(s[0], k) || AnyIn(s[1..], k)
  }

  /** The position of the first `b` in `s`. */
  function IndexOf(s: Bytes, b: byte): (r: Option<nat>)
    ensures r.None? <==> b !in s
    ensures r.Some? ==> r.value < |s| && s[r.value] == b && b !in s[..r.value]
  {
    if s == [] then None
    else if s[0] == b then Some(0)
    else match IndexOf(s[1..], b)
      case None => None
      case Some(i) => assert s[1..][..i] == s[1..i + 1]; Some(i + 1)
  }

  /** The position of the last `b` in `s`. */
  function LastIndexOf(s: Bytes, b: byte): (r: Option<nat>)
    ensures r.None? <==> b !in s
    ensures r.Some? ==> r.value < |s| && s[r.value] == b && b !in s[r.value + 1..]
  {
    if s == [] then None
    else if s[|s| - 1] == b then Some(|s| - 1)
    else LastIndexOf(s[..|s| - 1], b)
  }

  /** The byte `b` after ASCII lower-casing. */
  function LowerByte(b: byte): byte {
    if IsUpper(b) then (b as int + 32) as char else b
  }

  /** `s` with every ASCII upper-case letter lowered and every other byte kept. */
  function ToLowerAscii(s: Bytes): (r: Bytes)
    ensures |r| == |s|
    ensures forall i :: 0 <= i < |s| ==> r[i] == LowerByte(s[i])
  {
    if s == [] then [] else [LowerByte(s[0])] + ToLowerAscii(s[1..])
  }
}
