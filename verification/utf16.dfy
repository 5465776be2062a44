/** Part names and layout paths: null-terminated UTF-16LE strings stored
    after the record header. A string is kept as its sequence of UTF-16
    code units; the text encoding itself is not modelled. */
module Utf16 {
  import opened Ints
  import opened Results
  import opened Layout

  type WString = seq<uint16>

  /** No code unit is the terminator. */
  predicate NoNul(s: WString)
  {
    forall i :: 0 <= i < |s| ==> s[i] != 0
  }

  /** The code units, two little-endian bytes each. */
  function Units(s: WString): (r: seq<byte>)
    ensures |r| == 2 * |s|
  {
    if |s| == 0 then [] else ToLE(s[0], 2) + Units(s[1..])
  }

  /** The writer for a terminated string: the units, then a zero unit. */
  function WriteZ(s: WString): (r: seq<byte>)
    ensures |r| == 2 * |s| + 2
  {
    Units(s) + [0, 0]
  }

  /** The reader: code units from the front of `s` up to the first zero
      unit. Running out of data before the terminator fails. */
  function ReadZ(s: seq<byte>): (r: Result<WString>)
    ensures r.Ok? ==> NoNul(r.value) && WriteZ(r.value) <= s
    decreases |s|
  {
    if |s| < 2 then Fail(EndOfData)
    else
      var u := FromLE(s[..2]);
      assert Pow256(2) == 0x1_0000;
      ToFromLE(s[..2]);
      if u == 0 then
        assert s[..2] == [0, 0];
        Ok([])
      else
        var rest :- ReadZ(s[2..]);
        var w := [u as uint16] + rest;
        assert w[1..] == rest;
        assert WriteZ(w) == ToLE(u, 2) + WriteZ(rest);
        assert s == s[..2] + s[2..];
        Ok(w)
  }

  /** A terminated string reads back as written, whatever follows it. */
  lemma {:induction false} ReadWriteZ(w: WString, rest: seq<byte>)
    requires NoNul(w)
    ensures ReadZ(WriteZ(w) + rest) == Ok(w)
    decreases |w|
  {
    assert Pow256(2) == 0x1_0000;
    var s := WriteZ(w) + rest;
    if |w| == 0 {
      assert s[..2] == [0, 0] == ToLE(0, 2);
      FromToLE(0, 2);
    } else {
      var head := ToLE(w[0], 2);
      assert WriteZ(w) == head + WriteZ(w[1..]);
      assert s[..2] == head;
      assert s[2..] == WriteZ(w[1..]) + rest;
      FromToLE(w[0], 2);
      ReadWriteZ(w[1..], rest);
      assert [w[0]] + w[1..] == w;
    }
  }
}
