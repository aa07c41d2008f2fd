/** Types and operations shared by the models. */
module Common {
  datatype Option<+T> = None | Some(value: T)

  newtype byte = x: int | 0 <= x < 256

  const PTR_RANGE := 0x1_0000_0000_0000_0000

  /** Addition of addresses. */
  function Add(a: nat, b: nat): nat { (a + b) % PTR_RANGE }

  /** strchr() on a string: index of the first c, or the length. */
  function IndexOf(s: string, c: char): (i: nat)
    ensures i <= |s| && (i < |s| ==> s[i] == c) && c !in s[..i]
  {
    if s == [] || s[0] == c then 0
    else
      var k := IndexOf(s[1..], c);
      assert s[..k+1] == [s[0]] + s[1..][..k];
      1 + k
  }
}
