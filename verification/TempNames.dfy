/** Temporary file names: `.{file name}.{process id}.{counter}.tmp`, next to the target. */
module TempNames {
  import opened Words

  datatype Path = Path(dir: string, name: string)

  function Digit(d: nat): char
    requires d < 10
  {
    "0123456789"[d]
  }

  function Decimal(n: nat): (r: string)
    ensures if n < 10 then |r| == 1 else |r| >= 2
    ensures '.' !in r
  {
    if n < 10 then [Digit(n)] else Decimal(n / 10) + [Digit(n % 10)]
  }

  function Pow10(n: nat): (r: nat)
    ensures r > 0
  {
    if n == 0 then 1 else 10 * Pow10(n - 1)
  }

  /** The digit of weight ten to the `k`. */
  function DigitAt(n: nat, k: nat): (d: nat)
    ensures d < 10
  {
    n / Pow10(k) % 10
  }

  lemma NextDigit(n: nat, k: nat)
    ensures DigitAt(n, 0) == n % 10
    ensures k > 0 ==> DigitAt(n / 10, k - 1) == DigitAt(n, k)
  {
    if k > 0 {
      DivideTwice(n, 10, Pow10(k - 1));
    }
  }

  /** It stands at place `k` from the right. */
  lemma {:induction false} DecimalAt(n: nat, k: nat)
    requires k < |Decimal(n)|
    ensures Decimal(n)[|Decimal(n)| - 1 - k] == Digit(DigitAt(n, k))
  {
    NextDigit(n, k);
    if n >= 10 {
      if k > 0 {
        DecimalAt(n / 10, k - 1);
      }
      FromTheRight(Decimal(n), Decimal(n / 10), Digit(n % 10), k);
    }
  }

  lemma {:induction false} NoZeroLeads(n: nat)
    requires n > 0
    ensures Decimal(n)[0] != '0'
  {
    if n >= 10 {
      NoZeroLeads(n / 10);
    }
  }

  lemma FromTheRight(whole: string, front: string, last: char, k: nat)
    requires whole == front + [last] && k <= |front|
    ensures whole[|whole| - 1 - k] == if k == 0 then last else front[|front| - k]
  {
  }

  function TempPath(target: Path, pid: nat, suffix: nat): Path {
    Path(target.dir, "." + target.name + "." + Decimal(pid) + "." + Decimal(suffix) + ".tmp")
  }

  ghost predicate TempShaped(p: Path) {
    exists target, pid, suffix :: p == TempPath(target, pid, suffix)
  }

  lemma {:induction false} DecimalInjective(a: nat, b: nat)
    requires Decimal(a) == Decimal(b)
    ensures a == b
  {
    if a >= 10 && b >= 10 {
      assert Decimal(a)[..|Decimal(a)| - 1] == Decimal(a / 10);
      assert Decimal(b)[..|Decimal(b)| - 1] == Decimal(b / 10);
      DecimalInjective(a / 10, b / 10);
      assert Decimal(a)[|Decimal(a)| - 1] == Digit(a % 10);
      assert Decimal(b)[|Decimal(b)| - 1] == Digit(b % 10);
    }
  }

  /** The text behind the last dot, and the text before it, can be read back. */
  lemma LastDot(a: string, x: string, b: string, y: string)
    requires '.' !in x && '.' !in y
    requires a + "." + x == b + "." + y
    ensures a == b && x == y
  {
    var s := a + "." + x;
    assert s[|a|] == '.' && s[|b|] == '.' by {
      assert (b + "." + y)[|b|] == '.';
    }
    assert forall i :: |a| < i < |s| ==> s[i] == x[i - |a| - 1];
    assert forall i :: |b| < i < |s| ==> (b + "." + y)[i] == y[i - |b| - 1];
    assert |a| == |b|;
    assert s[..|a|] == a && (b + "." + y)[..|b|] == b;
    assert s[|a| + 1..] == x && (b + "." + y)[|b| + 1..] == y;
  }

  /** Process id and counter can be read back from the name, whatever the target. */
  lemma TempPathInjective(t1: Path, pid1: nat, n1: nat, t2: Path, pid2: nat, n2: nat)
    requires TempPath(t1, pid1, n1) == TempPath(t2, pid2, n2)
    ensures t1 == t2 && pid1 == pid2 && n1 == n2
  {
    var h1, h2 := "." + t1.name + "." + Decimal(pid1), "." + t2.name + "." + Decimal(pid2);
    var s1, s2 := h1 + "." + Decimal(n1), h2 + "." + Decimal(n2);
    assert s1 == (s1 + ".tmp")[..|s1 + ".tmp"| - 4] == (s2 + ".tmp")[..|s2 + ".tmp"| - 4] == s2;
    LastDot(h1, Decimal(n1), h2, Decimal(n2));
    LastDot("." + t1.name, Decimal(pid1), "." + t2.name, Decimal(pid2));
    assert t1.name == ("." + t1.name)[1..] == ("." + t2.name)[1..] == t2.name;
    DecimalInjective(n1, n2);
    DecimalInjective(pid1, pid2);
  }

  /** A temporary file is never the file it will replace. */
  lemma TempIsNotTarget(target: Path, pid: nat, suffix: nat)
    ensures TempPath(target, pid, suffix) != target
  {
    assert |TempPath(target, pid, suffix).name| > |target.name|;
  }
}
