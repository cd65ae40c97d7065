/** Counting fixed windows: how many windows of length w, started at least w apart, a time
    span can hold. Both limiters of the repository are bounded through these counts. */
module FixedWindows {
  import opened Instants

  /** How many windows can be started in [from, until] when starts are w apart. */
  function Windows(from: Time, until: Time, w: nat): nat
    requires 1 <= w
    decreases until + 1 - from
  {
    if until < from then 0 else 1 + Windows(from + w, until, w)
  }

  lemma {:induction false} WindowsFall(a: Time, b: Time, until: Time, w: nat)
    requires 1 <= w && a <= b
    ensures Windows(b, until, w) <= Windows(a, until, w)
    decreases until + 1 - a
  {
    if b <= until {
      WindowsFall(a + w, b + w, until, w);
    }
  }

  lemma ScaleMonotone(n: nat, a: nat, b: nat)
    requires a <= b
    ensures n * a <= n * b
  {
  }

  lemma {:induction false} WindowsSpan(from: Time, span: nat, w: nat)
    requires 1 <= w
    ensures var n := Windows(from, from + span, w);
            1 <= n && w * (n - 1) <= span < w * n
    decreases span
  {
    var rest := Windows(from + w, from + span, w);
    if w <= span {
      WindowsSpan(from + w, span - w, w);
      assert w * (rest - 1) == w * rest - w;
    } else {
      assert rest == 0;
    }
    assert w * (rest + 1) == w * rest + w;
  }

  lemma WindowsCount(from: Time, span: nat, w: nat)
    requires 1 <= w
    ensures Windows(from, from + span, w) == span / w + 1
  {
    var n, q := Windows(from, from + span, w), span / w;
    WindowsSpan(from, span, w);
    assert span == w * q + span % w;
    assert w * (q + 1) == w * q + w;
    if n - 1 < q {
      ScaleMonotone(w, n, q);
    } else if q + 1 < n {
      ScaleMonotone(w, q + 1, n - 1);
    }
  }

  /** A window that starts at now takes its share of what was due from an earlier instant. */
  lemma NewWindowFits(limit: nat, earliest: Time, now: Time, until: Time, w: nat)
    requires 1 <= w && earliest <= now <= until
    ensures limit + limit * Windows(now + w, until, w) <= limit * Windows(earliest, until, w)
  {
    var n := Windows(now + w, until, w);
    WindowsFall(earliest, now, until, w);
    assert Windows(now, until, w) == 1 + n;
    assert limit * (1 + n) == limit + limit * n;
    ScaleMonotone(limit, 1 + n, Windows(earliest, until, w));
  }

  /** One running window and those that can still start: at most span / w + 2 of them. */
  lemma WindowsInSpan(limit: nat, from: Time, next: Time, span: nat, w: nat)
    requires 1 <= w && from <= next
    ensures limit + limit * Windows(next, from + span, w) <= limit * (span / w + 2)
  {
    var n := span / w + 1;
    WindowsCount(from, span, w);
    WindowsFall(from, next, from + span, w);
    ScaleMonotone(limit, Windows(next, from + span, w), n);
    assert limit * (n + 1) == limit * n + limit;
  }
}
