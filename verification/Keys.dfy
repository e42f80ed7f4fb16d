/** Redis key names of the limiters, and the glob pattern that a reset deletes. */
module Keys {

  datatype Algorithm = FixedWindow | SlidingLog | SlidingWindowCounter | TokenBucket | LeakyBucket {
    function Name(): string {
      match this
      case FixedWindow => "fixed_window"
      case SlidingLog => "sliding_log"
      case SlidingWindowCounter => "sliding_window_counter"
      case TokenBucket => "token_bucket"
      case LeakyBucket => "leaky_bucket"
    }

    /** Counters have one key per window, the others one key per client. */
    predicate Windowed() { FixedWindow? || SlidingWindowCounter? }
  }

  function Digit(d: int): char
    requires 0 <= d < 10
  {
    "0123456789"[d]
  }

  function Decimal(n: nat): string {
    if n < 10 then [Digit(n)] else Decimal(n / 10) + [Digit(n % 10)]
  }

  /** The decimal rendering of an integer (the verb %d). */
  function Itoa(n: int): string {
    if n < 0 then "-" + Decimal(-n) else Decimal(n)
  }

  function ClientKey(a: Algorithm, policy: string, client: string): string {
    "rl:" + (a.Name() + (":" + (policy + (":" + client))))
  }

  function WindowKey(a: Algorithm, policy: string, client: string, start: int): string {
    ClientKey(a, policy, client + (":" + Itoa(start)))
  }

  /** Keys the limiter of one algorithm uses for one client of one policy. */
  ghost predicate Owns(a: Algorithm, policy: string, client: string, key: string) {
    if a.Windowed() then exists start :: key == WindowKey(a, policy, client, start)
    else key == ClientKey(a, policy, client)
  }

  /** Policy ids are UUIDs: no separator and no glob metacharacter occurs in them. */
  predicate PlainId(id: string) {
    forall c :: c in id ==> c !in ":*?[\\"
  }

  // ---------- names are unambiguous ----------

  lemma {:induction false} DecimalIsDigits(n: nat)
    ensures |Decimal(n)| > 0 && forall c :: c in Decimal(n) ==> c in "0123456789"
  {
    if n >= 10 {
      DecimalIsDigits(n / 10);
    }
  }

  function DigitValue(c: char): int { c as int - '0' as int }

  /** The number that a run of digits stands for. */
  function Parse(s: string): int {
    if s == "" then 0 else 10 * Parse(s[..|s| - 1]) + DigitValue(s[|s| - 1])
  }

  /** Decimal renderings read back, and no digit is wasted. */
  lemma {:induction false} DecimalReadsBack(n: nat)
    ensures Parse(Decimal(n)) == n
    ensures n > 0 ==> Decimal(n)[0] != '0'
  {
    DecimalIsDigits(n);
    if n >= 10 {
      DecimalReadsBack(n / 10);
      DecimalIsDigits(n / 10);
    } else {
      assert Decimal(n)[..0] == "";
    }
  }

  lemma DecimalInjective(m: nat, n: nat)
    requires Decimal(m) == Decimal(n)
    ensures m == n
  {
    DecimalReadsBack(m);
    DecimalReadsBack(n);
  }

  lemma ItoaPlain(n: int)
    ensures ':' !in Itoa(n)
  {
    DecimalIsDigits(if n < 0 then -n else n);
  }

  lemma SignShows(n: int)
    ensures Itoa(n) != "" && (Itoa(n)[0] == '-' <==> n < 0)
  {
    DecimalIsDigits(if n < 0 then -n else n);
    if n >= 0 {
      assert Decimal(n)[0] in Decimal(n);
    }
  }

  lemma ItoaInjective(m: int, n: int)
    requires Itoa(m) == Itoa(n)
    ensures m == n
  {
    SignShows(m);
    SignShows(n);
    if n < 0 {
      assert Itoa(m)[1..] == Decimal(-m) && Itoa(n)[1..] == Decimal(-n);
      DecimalInjective(-m, -n);
    } else {
      DecimalInjective(m, n);
    }
  }

  lemma FirstColon(a: string, x: string, b: string, y: string)
    requires ':' !in a && ':' !in b && a + (":" + x) == b + (":" + y)
    ensures a == b && x == y
  {
    var s := a + (":" + x);
    assert s[|a|] == ':' && s[|b|] == ':';
    assert forall k :: 0 <= k < |a| ==> s[k] == a[k] != ':';
    assert forall k :: 0 <= k < |b| ==> s[k] == b[k] != ':';
    assert a == s[..|a|] && b == s[..|b|];
    assert x == s[|a| + 1..] && y == s[|b| + 1..];
  }

  lemma LastColon(x: string, a: string, y: string, b: string)
    requires ':' !in a && ':' !in b && x + (":" + a) == y + (":" + b)
    ensures x == y && a == b
  {
    var s := x + (":" + a);
    assert s[|x|] == ':' && s[|y|] == ':';
    assert forall k :: |x| < k < |s| ==> s[k] == a[k - |x| - 1] != ':';
    assert forall k :: |y| < k < |s| ==> s[k] == b[k - |y| - 1] != ':';
    assert x == s[..|x|] && y == s[..|y|];
    assert a == s[|x| + 1..] && b == s[|y| + 1..];
  }

  lemma ClientKeyInjective(a: Algorithm, p: string, c: string, a': Algorithm, p': string, c': string)
    requires ':' !in p && ':' !in p' && ClientKey(a, p, c) == ClientKey(a', p', c')
    ensures a == a' && p == p' && c == c'
  {
    var rest, rest' := p + (":" + c), p' + (":" + c');
    assert a.Name() + (":" + rest) == ClientKey(a, p, c)[3..];
    assert a'.Name() + (":" + rest') == ClientKey(a', p', c')[3..];
    FirstColon(a.Name(), rest, a'.Name(), rest');
    FirstColon(p, c, p', c');
    assert a == a' by {
      assert |"fixed_window"| == 12 && |"sliding_log"| == 11 && |"sliding_window_counter"| == 22;
      assert "token_bucket"[0] != "fixed_window"[0] && "token_bucket"[0] != "leaky_bucket"[0];
      assert "fixed_window"[0] != "leaky_bucket"[0];
    }
  }

  lemma WindowKeyInjective(a: Algorithm, p: string, c: string, w: int, a': Algorithm, p': string, c': string, w': int)
    requires ':' !in p && ':' !in p' && WindowKey(a, p, c, w) == WindowKey(a', p', c', w')
    ensures a == a' && p == p' && c == c' && w == w'
  {
    ClientKeyInjective(a, p, c + (":" + Itoa(w)), a', p', c' + (":" + Itoa(w')));
    ItoaPlain(w);
    ItoaPlain(w');
    LastColon(c, Itoa(w), c', Itoa(w'));
    ItoaInjective(w, w');
  }

  /** No key serves two clients, two policies or two algorithms, whatever the client ids contain. */
  lemma OwnersAreUnique(a: Algorithm, p: string, c: string, a': Algorithm, p': string, c': string, key: string)
    requires ':' !in p && ':' !in p'
    requires Owns(a, p, c, key) && Owns(a', p', c', key)
    ensures a == a' && p == p' && c == c'
  {
    var tail :| key == ClientKey(a, p, tail) && (a.Windowed() || tail == c);
    var tail' :| key == ClientKey(a', p', tail') && (a'.Windowed() || tail' == c');
    ClientKeyInjective(a, p, tail, a', p', tail');
    if a.Windowed() {
      var w :| key == WindowKey(a, p, c, w);
      var w' :| key == WindowKey(a', p', c', w');
      WindowKeyInjective(a, p, c, w, a', p', c', w');
    }
  }

  // ---------- the reset pattern ----------

  /** Redis glob matching, for patterns whose only metacharacter is the star. */
  predicate Glob(pattern: string, s: string)
    decreases |pattern| + |s|
  {
    if pattern == "" then s == ""
    else if pattern[0] == '*' then Glob(pattern[1..], s) || (s != "" && Glob(pattern, s[1..]))
    else s != "" && s[0] == pattern[0] && Glob(pattern[1..], s[1..])
  }

  /** The pattern that Activate hands to ScanDelete. */
  function ResetPattern(id: string): string {
    "rl:" + ("*" + ((":" + id + ":") + "*"))
  }

  /** The needle starts at some position of s. */
  ghost predicate Occurs(needle: string, s: string) {
    exists i: nat :: OccursAt(needle, s, i)
  }

  predicate OccursAt(needle: string, s: string, i: nat) {
    i <= |s| && needle <= s[i..]
  }

  lemma {:induction false} GlobLiteral(p: string, q: string, s: string)
    requires '*' !in p
    ensures Glob(p + q, s) <==> p <= s && Glob(q, s[|p|..])
  {
    if p == "" {
      assert p + q == q && s[0..] == s;
    } else {
      assert (p + q)[0] == p[0] && (p + q)[1..] == p[1..] + q;
      if s != "" && s[0] == p[0] {
        GlobLiteral(p[1..], q, s[1..]);
        assert p <= s <==> p[1..] <= s[1..];
        if p <= s {
          assert s[1..][|p[1..]|..] == s[|p|..];
        }
      }
    }
  }

  lemma {:induction false} GlobStarAccepts(s: string)
    ensures Glob("*", s)
  {
    if s == "" {
      assert "*"[1..] == "";
    } else {
      GlobStarAccepts(s[1..]);
    }
  }

  /** A star, a literal and a star match where the literal occurs. */
  lemma {:induction false} GlobContains(needle: string, s: string)
    requires '*' !in needle
    ensures Glob("*" + (needle + "*"), s) <==> Occurs(needle, s)
  {
    var pattern := "*" + (needle + "*");
    assert pattern[1..] == needle + "*";
    GlobLiteral(needle, "*", s);
    if needle <= s {
      GlobStarAccepts(s[|needle|..]);
      assert s[0..] == s;
      assert OccursAt(needle, s, 0);
    } else if s != "" {
      GlobContains(needle, s[1..]);
      OccursInTail(needle, s);
    } else {
      assert s[0..] == s;
      assert !OccursAt(needle, s, 0);
    }
  }

  lemma OccursInTail(needle: string, s: string)
    requires s != "" && !(needle <= s)
    ensures Occurs(needle, s) <==> Occurs(needle, s[1..])
  {
    if Occurs(needle, s) {
      var i: nat :| OccursAt(needle, s, i);
      assert i != 0 by {
        assert s[0..] == s;
      }
      assert s[i..] == s[1..][i - 1..];
      assert OccursAt(needle, s[1..], i - 1);
    }
    if Occurs(needle, s[1..]) {
      var i: nat :| OccursAt(needle, s[1..], i);
      assert s[1..][i..] == s[i + 1..];
      assert OccursAt(needle, s, i + 1);
    }
  }
}
