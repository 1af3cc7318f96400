/** Octets, big-endian 16-bit fields and concatenation, shared by every wire format of the model. */
module Bytes {
  type Byte = b: int | 0 <= b < 256

  /** The size of a TLS record header. */
  const RECORD_HEADER := 5

  datatype Option<+T> = None | Some(value: T)

  /** The two octets at `i` as a big-endian number. */
  function U16At(s: seq<Byte>, i: nat): (v: nat)
    requires i + 2 <= |s|
    ensures v < 65536
  {
    256 * (s[i] as int) + s[i + 1]
  }

  /** A 16-bit big-endian field; larger numbers lose their high bits, as a Go `uint16` conversion does. */
  function PutU16(n: nat): (r: seq<Byte>)
    ensures |r| == 2
    ensures U16At(r, 0) == n % 65536
  {
    [n / 256 % 256, n % 256]
  }

  lemma PutU16At(s: seq<Byte>, i: nat)
    requires i + 2 <= |s|
    ensures PutU16(U16At(s, i)) == s[i..i + 2]
  {
    var n := U16At(s, i);
    assert n / 256 == s[i] && n % 256 == s[i + 1];
  }

  lemma Around<T>(s: seq<T>, i: nat)
    requires i < |s|
    ensures s[..i + 1] == s[..i] + [s[i]] && s == s[..i + 1] + s[i + 1..]
  {
  }

  lemma Associate<T>(a: seq<T>, b: seq<T>, c: seq<T>)
    ensures (a + b) + c == a + (b + c)
  {
  }

  function Flatten<T>(parts: seq<seq<T>>): seq<T> {
    if parts == [] then [] else parts[0] + Flatten(parts[1..])
  }

  lemma {:induction false} FlattenAppend<T>(a: seq<seq<T>>, b: seq<seq<T>>)
    ensures Flatten(a + b) == Flatten(a) + Flatten(b)
  {
    if a == [] {
      assert a + b == b;
    } else {
      FlattenAppend(a[1..], b);
      assert (a + b)[1..] == a[1..] + b;
    }
  }

  lemma FlattenOne<T>(x: seq<T>)
    ensures Flatten([x]) == x
  {
    assert [x][1..] == [];
    assert Flatten([x]) == x + Flatten<T>([]);
  }

  lemma FlattenSnoc<T>(a: seq<seq<T>>, x: seq<T>)
    ensures Flatten(a + [x]) == Flatten(a) + x
  {
    FlattenAppend(a, [x]);
    FlattenOne(x);
  }

  /** Reading a 16-bit field inside a longer text depends only on the text from that offset on. */
  lemma U16Suffix(s: seq<Byte>, i: nat, n: nat, rest: seq<Byte>)
    requires i <= |s| && n < 65536
    requires s[i..] == PutU16(n) + rest
    ensures i + 2 <= |s| && U16At(s, i) == n && s[i + 2..] == rest
  {
    assert s[i] == s[i..][0] && s[i + 1] == s[i..][1];
    assert s[i + 2..] == s[i..][2..];
  }
}
