/** Memory access shared by the Intcode machines of 2019 (days 2 and 5):
    memory is a Python list of integers, so an address counts from the end
    when it is negative and raises IndexError when it is out of range. */
module Intcode {
  import opened Common

  /** The two exceptions the interpreters can raise. */
  datatype Error = IndexError | ValueError

  /** `intcode[i]`. */
  function Read(mem: seq<int>, i: int): (r: Option<int>)
    ensures r.Some? <==> -|mem| <= i < |mem|
    ensures 0 <= i < |mem| ==> r == Some(mem[i])
    ensures -|mem| <= i < 0 ==> r == Some(mem[|mem| + i])
  {
    match PyIndex(|mem|, i)
    case None => None
    case Some(k) => Some(mem[k])
  }

  /** `intcode[i] = v`: only the addressed cell changes. */
  function Write(mem: seq<int>, i: int, v: int): (r: Option<seq<int>>)
    ensures r.Some? <==> -|mem| <= i < |mem|
    ensures r.Some? ==> |r.value| == |mem| && Read(r.value, i) == Some(v)
    ensures r.Some? ==> forall k :: 0 <= k < |mem| && k != PyIndex(|mem|, i).value ==> r.value[k] == mem[k]
  {
    match PyIndex(|mem|, i)
    case None => None
    case Some(k) => Some(mem[k := v])
  }
}
