/** The text of the code generator's labels: different labels have different texts, so
    a program built with texts is the program built with labels. */
module SeccompNames {
  import opened SeccompCode

  function Digit(n: nat): char
    requires n < 10
  {
    "0123456789"[n]
  }

  /** A number in decimal, as %v prints it. */
  function Decimal(n: nat): (s: string)
    ensures s != [] && forall c :: c in s ==> c != '_'
  {
    if n < 10 then [Digit(n)] else Decimal(n / 10) + [Digit(n % 10)]
  }

  function Text(l: Label): string {
    match l
    case Default => "default_action"
    case Index(sysno) => "index_" + Decimal(sysno)
    case CheckArgs(sysno) => "checkArgs_" + Decimal(sysno)
    case VsyscallViolation(set_, sysno) => "vsyscallViolation_" + Fields([set_, sysno])
    case RuleViolation(set_, sysno, rule) => "ruleViolation_" + Fields([set_, sysno, rule])
  }

  /** Numbers joined by underscores. */
  function Fields(ns: seq<nat>): string
    requires ns != []
  {
    if |ns| == 1 then Decimal(ns[0]) else Decimal(ns[0]) + "_" + Fields(ns[1..])
  }

  lemma {:induction false} DecimalInjective(a: nat, b: nat)
    requires Decimal(a) == Decimal(b)
    ensures a == b
  {
    var s, t := Decimal(a), Decimal(b);
    assert s[|s| - 1] == Digit(a % 10) && t[|t| - 1] == Digit(b % 10);
    DigitInjective(a % 10, b % 10);
    assert (a >= 10 <==> |s| > 1) && (b >= 10 <==> |t| > 1);
    if a >= 10 {
      assert Decimal(a / 10) == s[..|s| - 1] && Decimal(b / 10) == t[..|t| - 1];
      DecimalInjective(a / 10, b / 10);
    }
  }

  lemma DigitInjective(a: nat, b: nat)
    requires a < 10 && b < 10 && Digit(a) == Digit(b)
    ensures a == b
  {
  }

  /** How many characters come before the first underscore, or the end. */
  function Span(s: string): nat {
    if s == [] || s[0] == '_' then 0 else 1 + Span(s[1..])
  }

  lemma {:induction false} FieldSpan(a: string, x: string)
    requires (forall c :: c in a ==> c != '_') && (x == [] || x[0] == '_')
    ensures Span(a + x) == |a|
    decreases |a|
  {
    if a == [] {
      assert a + x == x;
    } else {
      assert a[0] in a && (a + x)[1..] == a[1..] + x;
      forall c | c in a[1..] ensures c != '_' {
        var i :| 0 <= i < |a[1..]| && a[1..][i] == c;
        assert a[i + 1] == c && c in a;
      }
      FieldSpan(a[1..], x);
    }
  }

  /** The first field of a text is what comes before the first underscore. */
  lemma FirstField(a: string, b: string, x: string, y: string)
    requires a + x == b + y && (forall c :: c in a ==> c != '_') && (forall c :: c in b ==> c != '_')
    requires (x == [] || x[0] == '_') && (y == [] || y[0] == '_')
    ensures a == b && x == y
  {
    FieldSpan(a, x);
    FieldSpan(b, y);
    var s := a + x;
    assert a == s[..|a|] && b == s[..|a|] && x == s[|a|..] && y == s[|a|..];
  }

  lemma {:induction false} FieldsInjective(a: seq<nat>, b: seq<nat>)
    requires a != [] && b != [] && Fields(a) == Fields(b)
    ensures a == b
    decreases |a|
  {
    var x := if |a| == 1 then [] else "_" + Fields(a[1..]);
    var y := if |b| == 1 then [] else "_" + Fields(b[1..]);
    assert Fields(a) == Decimal(a[0]) + x && Fields(b) == Decimal(b[0]) + y;
    FirstField(Decimal(a[0]), Decimal(b[0]), x, y);
    DecimalInjective(a[0], b[0]);
    if |a| > 1 {
      assert x[1..] == Fields(a[1..]) && y[1..] == Fields(b[1..]);
      FieldsInjective(a[1..], b[1..]);
      assert a == [a[0]] + a[1..] && b == [b[0]] + b[1..];
    } else {
      assert a == [a[0]] && b == [b[0]];
    }
  }

  lemma Behind(p: string, a: string, b: string)
    requires p + a == p + b
    ensures a == b
  {
    assert a == (p + a)[|p|..] && b == (p + b)[|p|..];
  }

  /** Different labels never share a text. */
  lemma TextInjective(l: Label, k: Label)
    requires Text(l) == Text(k)
    ensures l == k
  {
    hide Decimal, Fields;
    Kinds(l);
    Kinds(k);
    match l {
      case Default => {
      }
      case Index(sysno) => {
        Behind("index_", Decimal(sysno), Decimal(k.sysno));
        DecimalInjective(sysno, k.sysno);
      }
      case CheckArgs(sysno) => {
        Behind("checkArgs_", Decimal(sysno), Decimal(k.sysno));
        DecimalInjective(sysno, k.sysno);
      }
      case VsyscallViolation(set_, sysno) => {
        Behind("vsyscallViolation_", Fields([set_, sysno]), Fields([k.ruleSet, k.sysno]));
        FieldsInjective([set_, sysno], [k.ruleSet, k.sysno]);
        assert [set_, sysno][0] == set_ && [set_, sysno][1] == sysno;
      }
      case RuleViolation(set_, sysno, rule) => {
        var a, b: seq<nat> := [set_, sysno, rule], [k.ruleSet, k.sysno, k.rule];
        Behind("ruleViolation_", Fields(a), Fields(b));
        FieldsInjective(a, b);
        assert a[0] == b[0] && a[1] == b[1] && a[2] == b[2];
      }
    }
  }

  /** The first letter tells the kinds of label apart. */
  lemma Kinds(l: Label)
    ensures Text(l) != []
    ensures Text(l)[0] == match l
                          case Default => 'd'
                          case Index(_) => 'i'
                          case CheckArgs(_) => 'c'
                          case VsyscallViolation(_, _) => 'v'
                          case RuleViolation(_, _, _) => 'r'
  {
    hide Decimal, Fields;
  }
}
