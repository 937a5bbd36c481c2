/** The stored key and the request fingerprint of an idempotent create
    (internal/modules/widget/idempotent.go, internal/idempotency/idempotency.go). */
module Idempotency {

  // ---------------------------------------------------------------- row key

  /** subjectEscaper: '%' becomes "%25" and ':' becomes "%3A", in one pass. */
  function Escape(subject: string): string {
    if subject == "" then "" else
      (if subject[0] == '%' then "%25" else if subject[0] == ':' then "%3A" else [subject[0]]) + Escape(subject[1..])
  }

  function RowKey(subject: string, key: string): string {
    Escape(subject) + ":" + key
  }

  lemma {:induction false} EscapeHasNoColon(subject: string)
    ensures ':' !in Escape(subject)
  {
    if subject != "" {
      EscapeHasNoColon(subject[1..]);
    }
  }

  lemma {:induction false} EscapeIsInjective(a: string, b: string)
    requires Escape(a) == Escape(b)
    ensures a == b
  {
    if a == "" || b == "" {
    } else {
      var x, y := Escape(a), Escape(b);
      var n := if a[0] == '%' || a[0] == ':' then 3 else 1;
      assert x[n..] == Escape(a[1..]);
      var m := if b[0] == '%' || b[0] == ':' then 3 else 1;
      assert y[m..] == Escape(b[1..]);
      // The first characters decide which character was escaped.
      assert a[0] == '%' ==> x[0] == '%' && x[1] == '2';
      assert a[0] == ':' ==> x[0] == '%' && x[1] == '3';
      assert b[0] == '%' ==> y[0] == '%' && y[1] == '2';
      assert b[0] == ':' ==> y[0] == '%' && y[1] == '3';
      assert a[0] == b[0];
      EscapeIsInjective(a[1..], b[1..]);
      assert a == [a[0]] + a[1..] && b == [b[0]] + b[1..];
    }
  }

  function FirstColon(s: string): nat {
    if s == "" || s[0] == ':' then 0 else 1 + FirstColon(s[1..])
  }

  lemma {:induction false} ColonEndsSubject(s: string, k: string)
    requires ':' !in s
    ensures FirstColon(s + ":" + k) == |s|
  {
    if s != "" {
      assert (s + ":" + k)[1..] == s[1..] + ":" + k;
      ColonEndsSubject(s[1..], k);
    }
  }

  /** The first ':' of a row key ends the subject. */
  lemma SplitAtFirstColon(s: string, t: string, k: string, l: string)
    requires ':' !in s && ':' !in t
    requires s + ":" + k == t + ":" + l
    ensures s == t && k == l
  {
    ColonEndsSubject(s, k);
    ColonEndsSubject(t, l);
    var x := s + ":" + k;
    assert s == x[..|s|] && t == x[..|t|];
    assert k == x[|s| + 1..] && l == x[|t| + 1..];
  }

  /** Two callers share a stored key only if they are the same subject with the same key. */
  lemma RowKeyIsInjective(subject: string, key: string, subject': string, key': string)
    requires RowKey(subject, key) == RowKey(subject', key')
    ensures subject == subject' && key == key'
  {
    EscapeHasNoColon(subject);
    EscapeHasNoColon(subject');
    SplitAtFirstColon(Escape(subject), Escape(subject'), key, key');
    EscapeIsInjective(subject, subject');
  }

  /** The escaped subject: character by character, each '%' and ':' as "%25" and "%3A", and
      every other as it is. */
  lemma EscapedApart(a: string, b: string)
    ensures Escape(a + b) == Escape(a) + Escape(b)
    ensures Escape("%") == "%25" && Escape(":") == "%3A"
    ensures '%' !in a && ':' !in a ==> Escape(a) == a
  {
    EscapedInParts(a, b);
    assert "%"[1..] == "" && ":"[1..] == "" && Escape("") == "";
    if '%' !in a && ':' !in a { PlainStays(a); }
  }

  lemma {:induction false} EscapedInParts(a: string, b: string)
    ensures Escape(a + b) == Escape(a) + Escape(b)
  {
    if a == "" {
      assert a + b == b;
    } else {
      assert (a + b)[1..] == a[1..] + b;
      EscapedInParts(a[1..], b);
      var x := if a[0] == '%' then "%25" else if a[0] == ':' then "%3A" else [a[0]];
      assert Escape(a + b) == x + (Escape(a[1..]) + Escape(b)) && Escape(a) == x + Escape(a[1..]);
    }
  }

  lemma {:induction false} PlainStays(a: string)
    requires '%' !in a && ':' !in a
    ensures Escape(a) == a
  {
    if a != "" {
      assert a[0] in a;
      PlainStays(a[1..]);
      assert a == [a[0]] + a[1..];
    }
  }

  // ---------------------------------------------------------------- fingerprint

  /** A Go string or byte slice; each character stands for one byte. */
  type Bytes = string

  function Pow256(n: nat): nat {
    if n == 0 then 1 else 256 * Pow256(n - 1)
  }

  /** The low `width` bytes of `x`, most significant first (binary.BigEndian.PutUint64 for
      width 8). Like the conversion to uint64, it drops what does not fit. */
  function BigEndian(x: nat, width: nat): (b: Bytes)
    ensures |b| == width
  {
    if width == 0 then [] else BigEndian(x / 256, width - 1) + [(x % 256) as char]
  }

  function Value(b: Bytes): nat {
    if b == [] then 0 else 256 * Value(b[..|b| - 1]) + b[|b| - 1] as nat
  }

  lemma {:induction false} BigEndianRoundTrip(x: nat, width: nat)
    requires x < Pow256(width)
    ensures Value(BigEndian(x, width)) == x
  {
    if width > 0 {
      assert x / 256 < Pow256(width - 1);
      BigEndianRoundTrip(x / 256, width - 1);
      var b := BigEndian(x, width);
      assert b[..|b| - 1] == BigEndian(x / 256, width - 1);
    }
  }

  const WORD: nat := 8

  /** Every length below 2^64 is read back from its eight bytes. */
  lemma {:induction false} LengthRoundTrip(x: nat)
    requires x < 0x1_0000_0000_0000_0000
    ensures |BigEndian(x, WORD)| == 8 && Value(BigEndian(x, WORD)) == x
  {
    assert Pow256(4) == 0x1_0000_0000;
    assert Pow256(8) == 0x1_0000_0000_0000_0000;
    BigEndianRoundTrip(x, WORD);
  }

  /** What the hasher is fed: every part behind its length in eight bytes. */
  function Frame(parts: seq<Bytes>): Bytes {
    if parts == [] then [] else Frame(parts[..|parts| - 1]) + Framed(parts[|parts| - 1])
  }

  function Framed(part: Bytes): (b: Bytes)
    ensures |b| == 8 + |part| && b[8..] == part
  {
    BigEndian(|part|, WORD) + part
  }

  /** A Go slice is shorter than 2^63 bytes, so its length always fits eight bytes. */
  predicate Addressable(parts: seq<Bytes>) {
    forall p :: p in parts ==> |p| < 0x1_0000_0000_0000_0000
  }

  lemma {:induction false} FrameFromTheFront(part: Bytes, rest: seq<Bytes>)
    ensures Frame([part] + rest) == Framed(part) + Frame(rest)
  {
    var parts := [part] + rest;
    if rest == [] {
      assert parts[..|parts| - 1] == [];
    } else {
      var init := rest[..|rest| - 1];
      assert parts[..|parts| - 1] == [part] + init;
      FrameFromTheFront(part, init);
      assert Framed(part) + Frame(init) + Framed(rest[|rest| - 1])
          == Framed(part) + (Frame(init) + Framed(rest[|rest| - 1]));
    }
  }

  lemma FramedPrefix(p: Bytes, q: Bytes, x: Bytes, y: Bytes)
    requires |p| < 0x1_0000_0000_0000_0000 && |q| < 0x1_0000_0000_0000_0000
    requires Framed(p) + x == Framed(q) + y
    ensures p == q && x == y
  {
    var z := Framed(p) + x;
    assert z[..WORD] == BigEndian(|p|, WORD);
    assert z[..WORD] == BigEndian(|q|, WORD);
    LengthRoundTrip(|p|);
    LengthRoundTrip(|q|);
    assert z[WORD..WORD + |p|] == p;
    assert z[WORD..WORD + |q|] == q;
    assert z[WORD + |p|..] == x;
    assert z[WORD + |q|..] == y;
  }

  /** Part boundaries cannot alias: two lists of parts, of any lengths, that frame to the
      same bytes are the same list. */
  lemma {:induction false} FrameIsInjective(ps: seq<Bytes>, qs: seq<Bytes>)
    requires Addressable(ps) && Addressable(qs)
    requires Frame(ps) == Frame(qs)
    ensures ps == qs
    decreases |ps|
  {
    if ps != [] {
      assert ps == [ps[0]] + ps[1..];
      FrameFromTheFront(ps[0], ps[1..]);
    }
    if qs != [] {
      assert qs == [qs[0]] + qs[1..];
      FrameFromTheFront(qs[0], qs[1..]);
    }
    if ps != [] && qs != [] {
      assert ps[0] in ps && qs[0] in qs;
      FramedPrefix(ps[0], qs[0], Frame(ps[1..]), Frame(qs[1..]));
      FrameIsInjective(ps[1..], qs[1..]);
    }
  }

  method PutUint64(b: array<char>, x: nat)
    requires b.Length == WORD
    modifies b
    ensures b[..] == BigEndian(x, WORD)
  {
    var v, i := x, WORD;
    while i > 0
      invariant 0 <= i <= WORD
      invariant BigEndian(v, i) + b[i..] == BigEndian(x, WORD)
    {
      i := i - 1;
      b[i] := (v % 256) as char;
      assert BigEndian(v, i + 1) == BigEndian(v / 256, i) + [(v % 256) as char];
      v := v / 256;
    }
    assert b[0..] == b[..];
  }

  /** Hash, up to the digest of the bytes written, which is not part of this model. */
  method Hash(parts: seq<Bytes>) returns (written: Bytes)
    ensures written == Frame(parts)
  {
    written := [];
    var length := new char[WORD];
    for i := 0 to |parts|
      invariant written == Frame(parts[..i])
    {
      PutUint64(length, |parts[i]|);
      written := written + length[..];
      written := written + parts[i];
      assert parts[..i + 1][..i] == parts[..i];
    }
    assert parts[..|parts|] == parts;
  }
}
