/** Byte strings as the Go program handles them: a []byte is either nil or a
    (possibly empty) slice, and response bodies are normalised by deleting
    every carriage return. */
module ByteStrings {

  newtype Byte = x: int | 0 <= x < 256

  type Bytes = seq<Byte>

  /** The carriage-return byte '\r'. */
  const CR: Byte := 13

  /** A Go []byte: nil, or a slice with contents. The test loop tells the two
      apart (a nil sample input is a missing case); bytes.Equal and
      bytes.NewBuffer do not. */
  datatype ByteSlice = Nil | Slice(content: Bytes) {
    /** What a reader of the slice sees: nil reads as empty. */
    function Data(): (d: Bytes)
      ensures Nil? ==> d == []
      ensures Slice? ==> d == content
    {
      if Nil? then [] else content
    }
  }

  /** bytes.Equal: same length and same bytes, with nil equal to empty. */
  predicate Equal(a: ByteSlice, b: ByteSlice)
    ensures a == Nil ==> (Equal(a, b) <==> b == Nil || b == Slice([]))
  {
    a.Data() == b.Data()
  }

  /** Equal compares byte by byte: the same length and the same byte at
      every index. */
  lemma EqualBytewise(a: ByteSlice, b: ByteSlice)
    ensures Equal(a, b) <==>
      |a.Data()| == |b.Data()| && forall i :: 0 <= i < |a.Data()| ==> a.Data()[i] == b.Data()[i]
  {
  }

  /** bytes.Replace(content, "\r", nil, -1): delete every carriage return. */
  function StripCR(s: Bytes): (r: Bytes)
    ensures CR !in r
    ensures |r| <= |s|
    ensures multiset(r) == multiset(s)[CR := 0]
  {
    if s == [] then []
    else
      assert s == [s[0]] + s[1..];
      if s[0] == CR then StripCR(s[1..]) else [s[0]] + StripCR(s[1..])
  }

  /** The length drops by exactly the number of carriage returns. */
  lemma StripCRLength(s: Bytes)
    ensures |StripCR(s)| == |s| - multiset(s)[CR]
  {
    var r := StripCR(s);
    calc {
      |r|;
      |multiset(r)|;
      |multiset(s)[CR := 0]|;
      { MultisetRemoveAll(multiset(s), CR); }
      |multiset(s)| - multiset(s)[CR];
      |s| - multiset(s)[CR];
    }
  }

  lemma MultisetRemoveAll(m: multiset<Byte>, b: Byte)
    ensures |m[b := 0]| == |m| - m[b]
  {
    var rest := m[b := 0];
    var bs := multiset{}[b := m[b]];
    assert m == rest + bs;
  }

  /** Stripping distributes over concatenation, so every byte other than '\r'
      keeps its place relative to the others. */
  lemma {:induction false} StripCRAppend(a: Bytes, b: Bytes)
    ensures StripCR(a + b) == StripCR(a) + StripCR(b)
  {
    if a == [] {
      assert a + b == b;
    } else {
      assert (a + b)[0] == a[0];
      assert (a + b)[1..] == a[1..] + b;
      StripCRAppend(a[1..], b);
    }
  }

  /** Byte i of s, when it is not '\r', lands at the position given by the
      number of non-'\r' bytes before it. */
  lemma StripCRPosition(s: Bytes, i: nat)
    requires i < |s| && s[i] != CR
    ensures |StripCR(s[..i])| < |StripCR(s)|
    ensures StripCR(s)[|StripCR(s[..i])|] == s[i]
  {
    assert s == s[..i] + ([s[i]] + s[i + 1..]);
    StripCRAppend(s[..i], [s[i]] + s[i + 1..]);
    StripCRAppend([s[i]], s[i + 1..]);
    assert [s[i]][1..] == [];
  }

  /** Two non-'\r' bytes keep their relative order after stripping. */
  lemma StripCROrder(s: Bytes, i: nat, j: nat)
    requires i < j < |s| && s[i] != CR && s[j] != CR
    ensures |StripCR(s[..i])| < |StripCR(s[..j])|
  {
    assert s[..j] == s[..i] + s[i..j];
    StripCRAppend(s[..i], s[i..j]);
    assert s[i..j] == [s[i]] + s[i + 1..j];
    StripCRAppend([s[i]], s[i + 1..j]);
    assert [s[i]][1..] == [];
  }

  /** A body without carriage returns is left as it is. */
  lemma {:induction false} StripCRNoCR(s: Bytes)
    requires CR !in s
    ensures StripCR(s) == s
  {
    if s != [] {
      assert s[0] in s;
      assert forall k :: 0 <= k < |s[1..]| ==> s[1..][k] == s[k + 1];
      StripCRNoCR(s[1..]);
      assert s == [s[0]] + s[1..];
    }
  }

  /** Stripping twice is stripping once. */
  lemma StripCRIdempotent(s: Bytes)
    ensures StripCR(StripCR(s)) == StripCR(s)
  {
    StripCRNoCR(StripCR(s));
  }
}
