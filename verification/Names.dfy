/** Names of staging files: decimal numbers and their use in file names. */
module Names {

  type Bytes = seq<int>

  function Digit(d: nat): char
    requires d < 10
  {
    '0' + d as char
  }

  /** The decimal numeral of `n`. */
  function Decimal(n: nat): string {
    if n < 10 then [Digit(n)] else Decimal(n / 10) + [Digit(n % 10)]
  }

  function Value(s: string): nat {
    if s == "" then 0
    else Value(s[..|s| - 1]) * 10 + if '0' <= s[|s| - 1] <= '9' then (s[|s| - 1] - '0') as nat else 0
  }

  lemma {:induction false} ValueOfDecimal(n: nat)
    ensures Value(Decimal(n)) == n
  {
    if n < 10 {
      assert Decimal(n)[..0] == "";
    } else {
      ValueOfDecimal(n / 10);
      assert Decimal(n)[..|Decimal(n)| - 1] == Decimal(n / 10);
    }
  }

  lemma {:induction false} DecimalHasNoDot(n: nat)
    ensures '.' !in Decimal(n)
  {
    if n >= 10 {
      DecimalHasNoDot(n / 10);
    }
  }

  /** A dot-free part before the first dot is determined by the whole. */
  lemma CutAtDot(a: string, b: string, a': string, b': string)
    requires '.' !in a && '.' !in a'
    requires a + "." + b == a' + "." + b'
    ensures a == a' && b == b'
  {
    var s := a + "." + b;
    assert s == a' + "." + b';
    assert s[|a|] == '.' && s[|a'|] == '.';
    assert forall i :: 0 <= i < |a| ==> s[i] == a[i] && a[i] != '.';
    assert forall i :: 0 <= i < |a'| ==> s[i] == a'[i] && a'[i] != '.';
    assert a == s[..|a|] && a' == s[..|a'|];
    assert b == s[|a| + 1..] && b' == s[|a'| + 1..];
  }

  /** `<file>.<pid>.<count>.tmp`, the staging name minted for one extraction attempt. */
  function Staging(file: string, pid: nat, count: nat): string {
    file + "." + (Decimal(pid) + "." + (Decimal(count) + "." + "tmp"))
  }

  lemma StagingIsInjective(file: string, pid: nat, n: nat, file': string, pid': nat, n': nat)
    requires '.' !in file && '.' !in file'
    requires Staging(file, pid, n) == Staging(file', pid', n')
    ensures file == file' && pid == pid' && n == n'
  {
    DecimalHasNoDot(pid);
    DecimalHasNoDot(pid');
    DecimalHasNoDot(n);
    DecimalHasNoDot(n');
    var rest, rest' := Decimal(n) + "." + "tmp", Decimal(n') + "." + "tmp";
    CutAtDot(file, Decimal(pid) + "." + rest, file', Decimal(pid') + "." + rest');
    CutAtDot(Decimal(pid), rest, Decimal(pid'), rest');
    CutAtDot(Decimal(n), "tmp", Decimal(n'), "tmp");
    ValueOfDecimal(pid);
    ValueOfDecimal(pid');
    ValueOfDecimal(n);
    ValueOfDecimal(n');
  }

  lemma StagingHasDot(file: string, pid: nat, n: nat)
    ensures '.' in Staging(file, pid, n)
  {
    assert Staging(file, pid, n)[|file|] == '.';
  }

  /** The same for files named `<base>.js`. */
  lemma StagingOfScriptIsInjective(base: string, pid: nat, n: nat, base': string, pid': nat, n': nat)
    requires '.' !in base && '.' !in base'
    requires Staging(base + ".js", pid, n) == Staging(base' + ".js", pid', n')
    ensures base == base' && pid == pid' && n == n'
  {
    DecimalHasNoDot(pid);
    DecimalHasNoDot(pid');
    DecimalHasNoDot(n);
    DecimalHasNoDot(n');
    var rest, rest' := Decimal(n) + "." + "tmp", Decimal(n') + "." + "tmp";
    var tail, tail' := Decimal(pid) + "." + rest, Decimal(pid') + "." + rest';
    assert Staging(base + ".js", pid, n) == base + "." + ("js" + "." + tail);
    assert Staging(base' + ".js", pid', n') == base' + "." + ("js" + "." + tail');
    CutAtDot(base, "js" + "." + tail, base', "js" + "." + tail');
    CutAtDot("js", tail, "js", tail');
    CutAtDot(Decimal(pid), rest, Decimal(pid'), rest');
    CutAtDot(Decimal(n), "tmp", Decimal(n'), "tmp");
    ValueOfDecimal(pid);
    ValueOfDecimal(pid');
    ValueOfDecimal(n);
    ValueOfDecimal(n');
  }

  predicate EndsWith(s: string, t: string) { |t| <= |s| && s[|s| - |t|..] == t }

  lemma StagingIsNoScript(file: string, pid: nat, n: nat)
    ensures !EndsWith(Staging(file, pid, n), ".js")
  {
    var s := Staging(file, pid, n);
    assert s == file + "." + Decimal(pid) + "." + Decimal(n) + ".tmp";
    assert |s| >= 3 && s[|s| - 3..][2] == s[|s| - 1] == 'p';
    assert ".js"[2] == 's';
  }
}
