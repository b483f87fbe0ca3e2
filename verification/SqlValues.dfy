/**
  * What a SQLite column can hold, whatever its declared type, and the order in which
  * `ORDER BY` returns such values: null, then numbers, then text, then blobs.
  */
module SqlValues {
  import opened Basics

  datatype Cell =
    | Null
    | Integer(n: int)
    | Real(x: real)
    | Text(s: string)
    | Blob(b: Bytes)

  function OptionalText(t: Option<string>): Cell {
    match t
    case None => Null
    case Some(s) => Text(s)
  }

  /** Lexicographic order by code point, which is also the byte order of the UTF-8 forms. */
  predicate TextLess(a: string, b: string) {
    b != [] && (a == [] || a[0] < b[0] || (a[0] == b[0] && TextLess(a[1..], b[1..])))
  }

  predicate BytesLess(a: Bytes, b: Bytes) {
    b != [] && (a == [] || a[0] < b[0] || (a[0] == b[0] && BytesLess(a[1..], b[1..])))
  }

  function Rank(c: Cell): int {
    match c
    case Null => 0
    case Integer(_) => 1
    case Real(_) => 1
    case Text(_) => 2
    case Blob(_) => 3
  }

  function NumberOf(c: Cell): real
    requires Rank(c) == 1
  {
    match c
    case Integer(n) => n as real
    case Real(x) => x
  }

  predicate Before(a: Cell, b: Cell) {
    if Rank(a) != Rank(b) then Rank(a) < Rank(b)
    else if Rank(a) == 1 then NumberOf(a) < NumberOf(b)
    else if a.Text? then TextLess(a.s, b.s)
    else if a.Blob? then BytesLess(a.b, b.b)
    else false
  }

  lemma {:induction false} TextLessTransitive(a: string, b: string, c: string)
    requires TextLess(a, b) && TextLess(b, c)
    ensures TextLess(a, c)
  {
    if a != [] && a[0] == b[0] == c[0] {
      TextLessTransitive(a[1..], b[1..], c[1..]);
    }
  }

  lemma {:induction false} TextLessTotal(a: string, b: string)
    ensures TextLess(a, b) || a == b || TextLess(b, a)
    ensures !(TextLess(a, b) && TextLess(b, a)) && !TextLess(a, a)
  {
    if a != [] {
      if b != [] && a[0] == b[0] {
        TextLessTotal(a[1..], b[1..]);
        assert a == [a[0]] + a[1..] && b == [b[0]] + b[1..];
      }
      TextLessTotal(a[1..], a[1..]);
    }
  }

  lemma {:induction false} BytesLessTransitive(a: Bytes, b: Bytes, c: Bytes)
    requires BytesLess(a, b) && BytesLess(b, c)
    ensures BytesLess(a, c)
  {
    if a != [] && a[0] == b[0] == c[0] {
      BytesLessTransitive(a[1..], b[1..], c[1..]);
    }
  }

  lemma BeforeTransitive(a: Cell, b: Cell, c: Cell)
    requires Before(a, b) && Before(b, c)
    ensures Before(a, c)
  {
    if Rank(a) == Rank(b) == Rank(c) {
      if a.Text? {
        TextLessTransitive(a.s, b.s, c.s);
      } else if a.Blob? {
        BytesLessTransitive(a.b, b.b, c.b);
      }
    }
  }

  /** `a` and `b` agree before position `k`, where `a` ends or has the smaller code point. */
  ghost predicate SmallerFrom(a: string, b: string, k: nat) {
    && k <= |a| && k < |b| && a[..k] == b[..k]
    && (k < |a| ==> (a[k] as int) < (b[k] as int))
  }

  /** The order of texts, position by position. */
  lemma {:induction false} TextLessMeans(a: string, b: string)
    ensures TextLess(a, b) <==> exists k: nat :: SmallerFrom(a, b, k)
  {
    if a == [] || b == [] || a[0] != b[0] {
      assert b != [] && TextLess(a, b) ==> SmallerFrom(a, b, 0);
      assert forall k: nat :: SmallerFrom(a, b, k) && k > 0 ==> a[..k][0] == b[..k][0];
    } else {
      TextLessMeans(a[1..], b[1..]);
      assert forall k: nat :: k < |a| ==> a[1..][..k] == a[1..k + 1];
      if k: nat :| SmallerFrom(a[1..], b[1..], k) {
        assert a[..k + 1] == [a[0]] + a[1..][..k] && b[..k + 1] == [b[0]] + b[1..][..k];
        assert SmallerFrom(a, b, k + 1);
      }
      if k: nat :| SmallerFrom(a, b, k) {
        assert k > 0;
        assert a[1..][..k - 1] == a[..k][1..] && b[1..][..k - 1] == b[..k][1..];
        assert SmallerFrom(a[1..], b[1..], k - 1);
      }
    }
  }
}
