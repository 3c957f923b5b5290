/** Strings as C reads them from memory, through the bounded string functions. */
module CStrings {

  const ENT_LENGTH := 48

  type Byte = x: int | 0 <= x < 256

  /* The bytes from a pointer on: the bounded functions stop at a NUL or after
     ENT_LENGTH bytes, so one of the two must be there. */
  ghost predicate Readable(s: seq<Byte>) {
    |s| >= ENT_LENGTH || exists i :: 0 <= i < |s| && s[i] == 0
  }

  /* strnlen(s, ENT_LENGTH), counted from `i` on. */
  function StrNLen(s: seq<Byte>, i: nat): (n: nat)
    requires i <= ENT_LENGTH && i <= |s|
    ensures i <= n <= ENT_LENGTH && n <= |s|
    ensures forall j :: i <= j < n ==> s[j] != 0
    ensures n < ENT_LENGTH && n < |s| ==> s[n] == 0
    decreases |s| - i
  {
    if i == ENT_LENGTH || i == |s| || s[i] == 0 then i else StrNLen(s, i + 1)
  }

  /* What the database knows a string by: the bytes before its NUL, at most ENT_LENGTH. */
  function Key(s: seq<Byte>): (k: seq<Byte>) {
    s[..StrNLen(s, 0)]
  }

  predicate IsKey(k: seq<Byte>) {
    |k| <= ENT_LENGTH && forall i :: 0 <= i < |k| ==> k[i] != 0
  }

  /* A stored key: padded with NULs to ENT_LENGTH bytes, as strncpy leaves it. A key of
     full length is stored without any NUL. */
  function Pad(k: seq<Byte>): (e: seq<Byte>)
    requires |k| <= ENT_LENGTH
    ensures |e| == ENT_LENGTH
  {
    k + seq(ENT_LENGTH - |k|, _ => 0)
  }

  lemma PadIs(k: seq<Byte>)
    requires |k| <= 48
    ensures |Pad(k)| == 48 && Pad(k)[..|k|] == k && forall i :: |k| <= i < 48 ==> Pad(k)[i] == 0
  {
  }

  lemma KeyIsUnique(s: seq<Byte>, n: nat)
    requires n <= ENT_LENGTH && n <= |s| && (forall j :: 0 <= j < n ==> s[j] != 0)
    requires n == ENT_LENGTH || n == |s| || s[n] == 0
    ensures Key(s) == s[..n] && IsKey(Key(s))
  {
  }

  /* A string of up to 48 bytes is its own key, and of a longer one the first 48 are. */
  lemma KeyOfString(k: seq<Byte>, rest: seq<Byte>)
    requires forall i :: 0 <= i < |k| ==> k[i] != 0
    ensures Key(k + [0] + rest) == if |k| <= 48 then k else k[..48]
  {
    var s := k + [0] + rest;
    var n := if |k| <= ENT_LENGTH then |k| else ENT_LENGTH;
    assert s[..n] == k[..n];
    assert forall j :: 0 <= j < n ==> s[j] == k[j];
    KeyIsUnique(s, n);
  }

  /* Storing a key and reading it back, also when it fills the entry without a NUL. */
  lemma KeyOfPad(k: seq<Byte>)
    requires IsKey(k)
    ensures Key(Pad(k)) == k
  {
    KeyIsUnique(Pad(k), |k|);
  }

  /* strncmp(a, b, ENT_LENGTH) == 0, from byte `i` on. */
  predicate StrNEqual(a: seq<Byte>, b: seq<Byte>, i: nat)
    requires i <= ENT_LENGTH && StrNLen(a, 0) >= i && StrNLen(b, 0) >= i
    requires Readable(a) && Readable(b)
    decreases ENT_LENGTH - i
  {
    ReadableAt(a, i);
    ReadableAt(b, i);
    if i == ENT_LENGTH then true
    else if a[i] != b[i] then false
    else if a[i] == 0 then true
    else
      NonzeroGoesOn(a, i);
      NonzeroGoesOn(b, i);
      StrNEqual(a, b, i + 1)
  }

  lemma ReadableAt(s: seq<Byte>, i: nat)
    requires Readable(s) && i <= StrNLen(s, 0)
    ensures i < ENT_LENGTH ==> i < |s|
  {
  }

  lemma NonzeroGoesOn(s: seq<Byte>, i: nat)
    requires i < |s| && i < ENT_LENGTH && i <= StrNLen(s, 0) && s[i] != 0
    ensures i + 1 <= StrNLen(s, 0)
  {
  }

  /* Two strings compare equal exactly when they have the same key. */
  lemma {:induction false} StrNEqualIsKeyEquality(a: seq<Byte>, b: seq<Byte>, i: nat)
    requires i <= ENT_LENGTH && StrNLen(a, 0) >= i && StrNLen(b, 0) >= i
    requires Readable(a) && Readable(b) && a[..i] == b[..i]
    ensures StrNEqual(a, b, i) <==> Key(a) == Key(b)
    decreases ENT_LENGTH - i
  {
    var m, n := StrNLen(a, 0), StrNLen(b, 0);
    ReadableAt(a, i);
    ReadableAt(b, i);
    if i == ENT_LENGTH {
    } else if a[i] != b[i] {
      assert m > i ==> Key(a)[i] == a[i];
      assert n > i ==> Key(b)[i] == b[i];
    } else if a[i] == 0 {
      assert m == i && n == i;
    } else {
      StrNEqualIsKeyEquality(a, b, i + 1);
    }
  }
}
