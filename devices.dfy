/** Matching device names by their first word (`getFirstWord`, `getInDevices`, `getOutDevices`). */
module Devices {

  /**
   * `std::string::find` of one character, with the result stored in an `int`: the first
   * index holding `c`, or -1 (`npos` after the conversion) when there is none.
   */
  function Find(s: string, c: char): (i: int)
    ensures -1 <= i < |s|
    ensures i == -1 <==> c !in s
    ensures 0 <= i ==> s[i] == c && c !in s[..i]
  {
    if s == [] then -1
    else if s[0] == c then 0
    else
      var j := Find(s[1..], c);
      assert s[1..][..j + 1] == s[1..j + 2] by { assert j + 1 <= |s[1..]|; }
      if j == -1 then -1 else j + 1
  }

  /**
   * `getFirstWord`: the name up to its first space. With no space, `find` gives -1, which
   * `substr` reads as `npos`, so the whole name is kept.
   */
  function FirstWord(name: string): (w: string)
    ensures ' ' !in w
    ensures w <= name
    ensures |w| < |name| ==> name[|w|] == ' '
  {
    var delimIdx := Find(name, ' ');
    if delimIdx < 0 then name else name[..delimIdx]
  }

  /** Any space-free prefix of a name that ends at a space or at the end is its first word. */
  lemma FirstWordUnique(name: string, w: string)
    requires ' ' !in w && w <= name && (|w| < |name| ==> name[|w|] == ' ')
    ensures w == FirstWord(name)
  {
  }

  /**
   * `getInDevices` / `getOutDevices`: device `i` (in index order) is stored under the first
   * word of its name, overwriting any earlier device with the same first word.
   */
  method GetDevices(names: seq<string>) returns (devices: map<string, int>)
    ensures forall i :: 0 <= i < |names| ==> FirstWord(names[i]) in devices
    ensures forall w :: w in devices ==>
      0 <= devices[w] < |names| && FirstWord(names[devices[w]]) == w
    ensures forall w, j :: w in devices && devices[w] < j < |names| ==> FirstWord(names[j]) != w
  {
    devices := map[];
    for i := 0 to |names|
      invariant forall k :: 0 <= k < i ==> FirstWord(names[k]) in devices
      invariant forall w :: w in devices ==>
        0 <= devices[w] < i && FirstWord(names[devices[w]]) == w
      invariant forall w, j :: w in devices && devices[w] < j < i ==> FirstWord(names[j]) != w
    {
      devices := devices[FirstWord(names[i]) := i];
    }
  }
}
