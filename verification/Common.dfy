/** Small datatypes and counting lemmas shared by the other modules. */
module Common {

  datatype Option<+T> = None | Some(value: T)

  datatype Result<+T> = Ok(value: T) | Err(error: string)

  function Min(a: int, b: int): int { if a <= b then a else b }

  function Max(a: int, b: int): int { if a >= b then a else b }

  /** The largest u32, at which Rust's saturating addition stops. */
  const U32_MAX: int := 0xFFFF_FFFF

  function SatAdd32(a: nat, b: nat): nat { Min(a + b, U32_MAX) }

  function SatSub(a: nat, b: nat): nat { if a < b then 0 else a - b }

  lemma {:induction false} SubsetSize<T>(a: set<T>, b: set<T>)
    requires a <= b
    ensures |a| <= |b|
    ensures |a| == |b| ==> a == b
  {
    if a != {} {
      var x :| x in a;
      SubsetSize(a - {x}, b - {x});
    }
  }

  /** The integers from lo up to, not including, hi. */
  function Range(lo: int, hi: int): (r: set<int>)
    ensures forall v :: v in r <==> lo <= v < hi
    ensures |r| == if lo <= hi then hi - lo else 0
    decreases if lo <= hi then hi - lo else 0
  {
    if lo >= hi then {} else Range(lo, hi - 1) + {hi - 1}
  }

  /** char::is_whitespace: the Unicode White_Space property. */
  predicate IsWhitespace(c: char) {
    var n := c as int;
    || 0x09 <= n <= 0x0D || n == 0x20 || n == 0x85 || n == 0xA0 || n == 0x1680
    || 0x2000 <= n <= 0x200A || n == 0x2028 || n == 0x2029 || n == 0x202F || n == 0x205F || n == 0x3000
  }

  /** The characters with this property, block by block of the code charts. */
  const LATIN := [9, 10, 11, 12, 13, 32, 0x85, 0xA0]
  const PUNCTUATION := [0x2000, 0x2001, 0x2002, 0x2003, 0x2004, 0x2005, 0x2006, 0x2007, 0x2008, 0x2009, 0x200A,
                        0x2028, 0x2029, 0x202F, 0x205F]
  const OGHAM_SPACE := 0x1680
  const IDEOGRAPHIC_SPACE := 0x3000

  lemma WhitespaceIff(c: char)
    ensures IsWhitespace(c) <==>
      c as int in LATIN || c as int in PUNCTUATION || c as int == OGHAM_SPACE || c as int == IDEOGRAPHIC_SPACE
  {
    var n := c as int;
    if 9 <= n <= 13 { assert LATIN[n - 9] == n; }
    if n == 32 || n == 0x85 || n == 0xA0 { assert LATIN[5] == 32 && LATIN[6] == 0x85 && LATIN[7] == 0xA0; }
    if 0x2000 <= n <= 0x200A { assert PUNCTUATION[n - 0x2000] == n; }
    assert PUNCTUATION[11] == 0x2028 && PUNCTUATION[12] == 0x2029 && PUNCTUATION[13] == 0x202F && PUNCTUATION[14] == 0x205F;
  }
}
