/** Effects on the stack: what one is, and the table of those that are known. */
module Words {
  import opened Basics

  datatype Effect = Effect(takes: nat, leaves: nat)

  /** The table, a row at a time. */
  datatype Rows = Last | Row(name: string, takes: nat, leaves: nat, next: Rows)

  /** The first row of that name, from the top of the table. */
  function LookUp(table: Rows, name: string): Option<Effect> {
    match table
    case Last => None
    case Row(n, takes, leaves, next) => if n == name then Some(Effect(takes, leaves)) else LookUp(next, name)
  }

  /** The words the translator writes of its own accord. */
  function AmongOperators(name: string): Option<Effect> {
    LookUp(
      Row("+", 2, 1, Row("-", 2, 1, Row("*", 2, 1, Row("neg", 1, 1, Row("fac", 1, 1, Row("inv", 1, 1,
      Row("pow", 2, 1, Row("divide", 2, 1, Row("sq", 1, 1, Row("cb", 1, 1, Last)))))))))),
      name)
  }

  /** The rest of the table; no name is there twice, so the order is free. */
  function AmongOthers(name: string): Option<Effect> {
    LookUp(
      Row("x", 0, 1, Row("y", 0, 1, Row("t", 0, 1, Row("theta", 0, 1, Row("pi", 0, 1, Row("e", 0, 1,
      Row("i", 0, 1, Row("sin", 1, 1, Row("cos", 1, 1, Row("tan", 1, 1, Row("asin", 1, 1, Row("acos", 1, 1,
      Row("atan", 1, 1, Row("sinh", 1, 1, Row("cosh", 1, 1, Row("tanh", 1, 1, Row("asinh", 1, 1,
      Row("acosh", 1, 1, Row("atanh", 1, 1, Row("ln", 1, 1, Row("log", 1, 1, Row("log10", 1, 1,
      Row("log2", 1, 1, Row("exp", 1, 1, Row("exp2", 1, 1, Row("alog", 1, 1, Row("sqrt", 1, 1,
      Row("cbrt", 1, 1, Row("abs", 1, 1, Row("floor", 1, 1, Row("ceil", 1, 1, Row("round", 1, 1,
      Row("trunc", 1, 1, Row("real", 1, 1, Row("imag", 1, 1, Row("conj", 1, 1, Row("angle", 1, 1,
      Row("/", 2, 1, Row("%", 2, 1, Row("plus", 2, 1, Row("minus", 2, 1, Row("multiply", 2, 1,
      Row("modulo", 2, 1, Row("fmod", 2, 1, Row("min", 2, 1, Row("max", 2, 1, Row("fmin", 2, 1,
      Row("fmax", 2, 1, Row("hypot", 2, 1, Row("atan2", 2, 1, Row("dup", 1, 2, Row("drop", 1, 0,
      Row("swap", 2, 2, Row("over", 2, 3, Row("rot", 3, 3, Row("nip", 2, 1, Row("dup2", 2, 4,
      Row("percent", 2, 2, Row("lastx", 0, 1, Row("print", 1, 0, Row("nl", 0, 0, Row("within", 3, 1,
      Row("<", 2, 1, Row(">", 2, 1, Row("<=", 2, 1, Row(">=", 2, 1, Row("==", 2, 1, Row("!=", 2, 1,
      Row("and", 2, 1, Row("or", 2, 1, Row("not", 1, 1,
      Last))))))))))))))))))))))))))))))))))))))))))))))))))))))))))))))))))))))),
      name)
  }

  /** The table under some covers, so that a proof with no need of the rows does not read them.
      The size goes along so that a word written out is no reason to read them either. */
  function Open(name: string, size: nat, covers: nat): Option<Effect>
    decreases covers, name, size
  {
    if covers > 4 then Open(name, size, covers - 1)
    else if covers == 4 then
      var e := AmongOperators(name);
      if e.Some? then e else Open(name, size, 3)
    else if covers > 0 then Open(name, size, covers - 1)
    else AmongOthers(name)
  }

  /** The effect of a word, if it is in the table. */
  function EffectOf(name: string): Option<Effect> {
    Open(name, |name|, 7)
  }

  lemma OpenOperators(name: string)
    ensures AmongOperators(name).Some? ==> EffectOf(name) == AmongOperators(name)
  {
    assert Open(name, |name|, 5) == Open(name, |name|, 4);
    assert Open(name, |name|, 6) == Open(name, |name|, 5);
  }

  lemma EffectPlus()
    ensures EffectOf("+") == Some(Effect(2, 1))
  {
    OpenOperators("+");
    assert "+"[0] == '+';
  }

  lemma EffectMinusSign()
    ensures EffectOf("-") == Some(Effect(2, 1))
  {
    OpenOperators("-");
    assert "+"[0] == '+' && "-"[0] == '-';
  }

  lemma EffectTimes()
    ensures EffectOf("*") == Some(Effect(2, 1))
  {
    OpenOperators("*");
    assert "+"[0] == '+' && "-"[0] == '-' && "*"[0] == '*';
  }

  lemma EffectDivide()
    ensures EffectOf("divide") == Some(Effect(2, 1))
  {
    OpenOperators("divide");
  }

  lemma EffectPow()
    ensures EffectOf("pow") == Some(Effect(2, 1))
  {
    OpenOperators("pow");
    assert "neg"[0] == 'n' && "fac"[0] == 'f' && "inv"[0] == 'i' && "pow"[0] == 'p';
  }

  lemma EffectNeg()
    ensures EffectOf("neg") == Some(Effect(1, 1))
  {
    OpenOperators("neg");
  }

  lemma EffectFac()
    ensures EffectOf("fac") == Some(Effect(1, 1))
  {
    OpenOperators("fac");
    assert "neg"[0] == 'n' && "fac"[0] == 'f';
  }

  lemma EffectSq()
    ensures EffectOf("sq") == Some(Effect(1, 1))
  {
    OpenOperators("sq");
  }

  lemma EffectCb()
    ensures EffectOf("cb") == Some(Effect(1, 1))
  {
    OpenOperators("cb");
    assert "sq"[0] == 's' && "cb"[0] == 'c';
  }

  lemma EffectInv()
    ensures EffectOf("inv") == Some(Effect(1, 1))
  {
    OpenOperators("inv");
    assert "neg"[0] == 'n' && "fac"[0] == 'f' && "inv"[0] == 'i';
  }
}
