// Machine words as their bits (index 0 is the least significant bit), with C's bitwise operators.
module Words {
  type Word = seq<bool>

  function Zeros(width: nat): (w: Word)
    ensures |w| == width
  {
    seq(width, _ => false)
  }

  function Ones(width: nat): (w: Word)
    ensures |w| == width
  {
    seq(width, _ => true)
  }

  function Or(a: Word, b: Word): (w: Word)
    requires |a| == |b|
    ensures |w| == |a|
  {
    seq(|a|, i requires 0 <= i < |a| => a[i] || b[i])
  }

  function And(a: Word, b: Word): (w: Word)
    requires |a| == |b|
    ensures |w| == |a|
  {
    seq(|a|, i requires 0 <= i < |a| => a[i] && b[i])
  }

  function Not(a: Word): (w: Word)
    ensures |w| == |a|
  {
    seq(|a|, i requires 0 <= i < |a| => !a[i])
  }

  /** Left and right shift by s, zeros moving in; bits shifted past the width are lost. */
  function Shl(a: Word, s: nat): (w: Word)
    ensures |w| == |a|
  {
    seq(|a|, i requires 0 <= i < |a| => s <= i && a[i - s])
  }

  function Shr(a: Word, s: nat): (w: Word)
    ensures |w| == |a|
  {
    seq(|a|, i requires 0 <= i < |a| => i + s < |a| && a[i + s])
  }

  /** The word 1. */
  function One(width: nat): (w: Word)
    requires width > 0
    ensures |w| == width
  {
    Zeros(width)[0 := true]
  }
}
