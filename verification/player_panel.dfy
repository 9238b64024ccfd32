/** The arithmetic-question panel of one player: random question
    generation, the numpad input buffer and the submit guard that decides
    when the player's correct answer reaches the game.

    `Math.random()` draws are parameters in [0, 1); the pending timer that
    loads the next question is the separate operation `NextQuestion`. */
module PlayerPanel {
  import opened Wrappers
  import opened Numeric

  // ---------------------------------------------------------------------------
  // Random integers and questions
  // ---------------------------------------------------------------------------

  /** A uniform integer in [min, max]: the draw scaled to the range's size,
      rounded down, and offset by min. */
  function RandInt(min: int, max: int, u: real): (r: int)
    ensures min <= max && InUnit(u) ==> min <= r <= max
  {
    var n := max - min + 1;
    var scaled := u * (n as real);
    assert min <= max && InUnit(u) ==> 0.0 <= scaled < n as real by {
      if min <= max && InUnit(u) {
        var rest := 1.0 - u;
        assert rest * (n as real) > 0.0;
        assert rest * (n as real) == (n as real) - scaled;
      }
    }
    scaled.Floor + min
  }

  /** Every integer in the range is produced by some draw. */
  lemma RandIntReachesAll(min: int, max: int, k: int)
    requires min <= k <= max
    ensures var u := (k - min) as real / (max - min + 1) as real;
      InUnit(u) && RandInt(min, max, u) == k
  {
    var n := (max - min + 1) as real;
    var u := (k - min) as real / n;
    assert u * n == (k - min) as real;
  }

  datatype Op = Plus | Minus | Times | Divide

  /** The four operator symbols in the order the generator indexes them. */
  function OpAt(i: int): Option<Op>
  {
    if i == 0 then Some(Plus)
    else if i == 1 then Some(Minus)
    else if i == 2 then Some(Times)
    else if i == 3 then Some(Divide)
    else None
  }

  function Symbol(op: Option<Op>): string
  {
    match op
    case Some(Plus) => "+"
    case Some(Minus) => "-"
    case Some(Times) => "×"
    case Some(Divide) => "÷"
    case None => "undefined"
  }

  /** A question is shown as `a op b` and carries the expected answer. */
  datatype Question = Question(a: int, op: Option<Op>, b: int, answer: int)

  /** The question as shown: first operand, operator, second operand,
      separated by single spaces. */
  function Display(q: Question): (r: string)
    ensures |r| >= 5
  {
    IntToString(q.a) + " " + Symbol(q.op) + " " + IntToString(q.b)
  }

  /** The value of the displayed expression, when it has one: a division
      must be exact. */
  function Eval(a: int, op: Option<Op>, b: int): Option<int>
  {
    match op
    case Some(Plus) => Some(a + b)
    case Some(Minus) => Some(a - b)
    case Some(Times) => Some(a * b)
    case Some(Divide) => if b != 0 && a % b == 0 then Some(a / b) else None
    case None => None
  }

  /** Three draws: the operator, then the two operands in the order the
      source draws them (for a division the answer comes first). */
  function GenerateQuestion(uOp: real, u1: real, u2: real): (q: Question)
    ensures InUnit(uOp) && InUnit(u1) && InUnit(u2) ==>
      && q.op.Some?
      && (q.op == Some(Plus) ==> 3 <= q.a <= 20 && 3 <= q.b <= 20 && 6 <= q.answer <= 40)
      && (q.op == Some(Minus) ==> 8 <= q.a <= 20 && 2 <= q.b <= q.a - 3 && 3 <= q.answer <= 18)
      && (q.op == Some(Times) ==> 2 <= q.a <= 12 && 2 <= q.b <= 12 && 4 <= q.answer <= 144)
      && (q.op == Some(Divide) ==> 2 <= q.b <= 9 && 2 <= q.answer <= 9 && 4 <= q.a <= 81)
  {
    var op := OpAt(RandInt(0, 3, uOp));
    match op
    case Some(Plus) =>
      var a := RandInt(3, 20, u1);
      var b := RandInt(3, 20, u2);
      Question(a, op, b, a + b)
    case Some(Minus) =>
      var a := RandInt(8, 20, u1);
      var b := RandInt(2, a - 3, u2);
      Question(a, op, b, a - b)
    case Some(Times) =>
      var a := RandInt(2, 12, u1);
      var b := RandInt(2, 12, u2);
      ProductBounds(a, b);
      Question(a, op, b, a * b)
    case Some(Divide) =>
      var answer := RandInt(2, 9, u1);
      var b := RandInt(2, 9, u2);
      ProductBounds(answer, b);
      Question(answer * b, op, b, answer)
    case None =>
      Question(1, op, 1, 2)
  }

  lemma ProductBounds(a: int, b: int)
    ensures 2 <= a <= 12 && 2 <= b <= 12 ==> 4 <= a * b <= 144
    ensures 2 <= a <= 9 && 2 <= b <= 9 ==> a * b <= 81
  {
    if !(2 <= a <= 12 && 2 <= b <= 12) { return; }
    var i := a - 2;
    var j := b - 2;
    assert a * b == i * j + 2 * i + 2 * j + 4;
    assert 0 <= i * j by { if i > 0 { assert i * j >= 0; } }
    assert i * j <= 100 by {
      assert (10 - i) * j >= 0;
      assert i * (10 - j) + (10 - i) * (10 - j) >= 0;
    }
    if a <= 9 && b <= 9 {
      assert i * j <= 49 by {
        assert (7 - i) * j >= 0;
        assert i * (7 - j) + (7 - i) * (7 - j) >= 0;
      }
    }
  }

  /** Every generated question is correct: evaluating what the player sees
      gives the expected answer, and a division is always exact. */
  lemma QuestionIsCorrect(uOp: real, u1: real, u2: real)
    requires InUnit(uOp) && InUnit(u1) && InUnit(u2)
    ensures var q := GenerateQuestion(uOp, u1, u2);
      Eval(q.a, q.op, q.b) == Some(q.answer)
  {
    var q := GenerateQuestion(uOp, u1, u2);
    if q.op == Some(Divide) {
      assert q.a == q.answer * q.b;
      assert q.a % q.b == 0 && q.a / q.b == q.answer by {
        DivExact(q.answer, q.b);
      }
    }
  }

  lemma MulAtLeast(e: int, b: int)
    requires e > 0 && b > 0
    ensures e * b >= b
  {
  }

  /** A multiple of b divides by b exactly. */
  lemma DivExact(k: int, b: int)
    requires b > 0
    ensures (k * b) % b == 0 && (k * b) / b == k
  {
    var a := k * b;
    var q := a / b;
    var r := a % b;
    var e := k - q;
    assert e * b == r;
    if e > 0 {
      MulAtLeast(e, b);
      assert false;
    } else if e < 0 {
      MulAtLeast(-e, b);
      assert false;
    }
  }

  /** The fallback question can only appear for an operator draw outside
      [0, 1); with a proper draw every operator is reachable. */
  lemma EveryOperatorReachable(k: int)
    requires 0 <= k <= 3
    ensures var u := k as real / 4.0;
      InUnit(u) && GenerateQuestion(u, 0.0, 0.0).op == OpAt(k) && OpAt(k).Some?
  {
    RandIntReachesAll(0, 3, k);
  }

  // ---------------------------------------------------------------------------
  // Decimal strings
  // ---------------------------------------------------------------------------

  predicate IsDigit(c: char) { '0' <= c <= '9' }

  /** The JavaScript whitespace characters of the ASCII range. */
  predicate IsSpace(c: char)
  {
    c == ' ' || c == '\t' || c == '\n' || c == '\r' || c == '\U{B}' || c == '\U{C}'
  }

  /** The string is empty or all white space. */
  predicate Blank(s: string)
  {
    forall i :: 0 <= i < |s| ==> IsSpace(s[i])
  }

  function DigitChar(d: nat): (c: char)
    requires d < 10
    ensures IsDigit(c) && DigitVal(c) == d
  {
    (d + '0' as int) as char
  }

  function DigitVal(c: char): nat
    requires IsDigit(c)
  {
    (c as int - '0' as int) as nat
  }

  /** Decimal spelling of a natural number, no leading zeros. */
  function Decimal(n: nat): (s: string)
    ensures |s| >= 1
    ensures forall i :: 0 <= i < |s| ==> IsDigit(s[i])
    decreases n
  {
    if n < 10 then [DigitChar(n)] else Decimal(n / 10) + [DigitChar(n % 10)]
  }

  /** The decimal spelling of an integer, with a leading minus sign when it
      is negative. */
  function IntToString(n: int): (r: string)
    ensures r != []
    ensures r[0] == '-' <==> n < 0
  {
    if n < 0 then "-" + Decimal(-n) else Decimal(n)
  }

  /** The number a string of digits spells. */
  function Value(ds: string): nat
    requires forall i :: 0 <= i < |ds| ==> IsDigit(ds[i])
    decreases |ds|
  {
    if ds == [] then 0 else Value(ds[..|ds| - 1]) * 10 + DigitVal(ds[|ds| - 1])
  }

  function SkipSpace(s: string): (r: string)
    ensures |r| <= |s| && r == s[|s| - |r|..]
    ensures r == [] || !IsSpace(r[0])
  {
    if s != [] && IsSpace(s[0]) then SkipSpace(s[1..]) else s
  }

  /** The longest run of digits at the start of `s`. */
  function DigitPrefix(s: string): (r: string)
    ensures |r| <= |s| && r == s[..|r|]
    ensures forall i :: 0 <= i < |r| ==> IsDigit(r[i])
    ensures |r| < |s| ==> !IsDigit(s[|r|])
  {
    if s != [] && IsDigit(s[0]) then [s[0]] + DigitPrefix(s[1..]) else []
  }

  /** `parseInt(s, 10)`: leading whitespace, an optional sign, then the
      longest run of decimal digits; no digits is NaN. */
  function ParseInt(s: string): Option<int>
  {
    var t := SkipSpace(s);
    if t != [] && t[0] == '-' then Negate(ParseDigitRun(t[1..]))
    else if t != [] && t[0] == '+' then ParseDigitRun(t[1..])
    else ParseDigitRun(t)
  }

  /** The value of the digits at the start of `s`, if there are any. */
  function ParseDigitRun(s: string): Option<int>
  {
    var ds := DigitPrefix(s);
    if ds == [] then None else Some(Value(ds) as int)
  }

  function Negate(v: Option<int>): Option<int>
  {
    if v.Some? then Some(-v.value) else None
  }

  lemma {:induction false} ValueOfDecimal(n: nat)
    ensures Value(Decimal(n)) == n
    decreases n
  {
    var s := Decimal(n);
    if n >= 10 {
      var front := Decimal(n / 10);
      var last := DigitChar(n % 10);
      assert s == front + [last];
      assert s[..|s| - 1] == front;
      ValueOfDecimal(n / 10);
      assert Value(s) == Value(front) * 10 + DigitVal(last);
    } else {
      assert s[..0] == [];
    }
  }

  lemma {:induction false} DigitPrefixOfDigits(s: string)
    requires forall i :: 0 <= i < |s| ==> IsDigit(s[i])
    ensures DigitPrefix(s) == s
    decreases |s|
  {
    if s != [] {
      DigitPrefixOfDigits(s[1..]);
      assert [s[0]] + s[1..] == s;
    }
  }

  /** Reading back the decimal spelling of a number gives the number. */
  lemma ParseDecimal(n: nat)
    ensures ParseInt(Decimal(n)) == Some(n)
  {
    ParseDigits(Decimal(n));
    ValueOfDecimal(n);
  }

  /** Reading back the spelling of any integer, negative ones included,
      gives the integer. */
  lemma ParseIntToString(n: int)
    ensures ParseInt(IntToString(n)) == Some(n)
  {
    if n < 0 {
      var s := IntToString(n);
      var d := Decimal(-n);
      assert ParseDigitRun(d) == Some(-n) by {
        DigitPrefixOfDigits(d);
        ValueOfDecimal(-n);
      }
      assert s[0] == '-' && s[1..] == d by { assert s == "-" + d; }
      ParseIntAtMinus(s, -n);
    } else {
      ParseDecimal(n);
    }
  }

  /** The digit run stops at the first character that is not a digit. */
  lemma {:induction false} DigitPrefixStops(ds: string, rest: string)
    requires forall i :: 0 <= i < |ds| ==> IsDigit(ds[i])
    requires rest != [] && !IsDigit(rest[0])
    ensures DigitPrefix(ds + rest) == ds
    decreases |ds|
  {
    if ds == [] {
      assert ds + rest == rest;
    } else {
      assert (ds + rest)[1..] == ds[1..] + rest;
      DigitPrefixStops(ds[1..], rest);
      assert [ds[0]] + ds[1..] == ds;
    }
  }

  /** Digits followed by a space form a digit run worth what they spell. */
  lemma DigitRunBeforeSpace(ds: string, rest: string)
    requires ds != [] && forall i :: 0 <= i < |ds| ==> IsDigit(ds[i])
    requires rest != [] && rest[0] == ' '
    ensures ParseDigitRun(ds + rest) == Some(Value(ds) as int)
  {
    assert !IsDigit(rest[0]);
    DigitPrefixStops(ds, rest);
  }

  /** A string that starts with a digit is read as a bare digit run. */
  lemma ParseIntAtDigit(s: string)
    requires s != [] && IsDigit(s[0])
    ensures ParseInt(s) == ParseDigitRun(s)
  {
    assert !IsSpace(s[0]);
    assert SkipSpace(s) == s;
  }

  /** A minus sign in front of a digit run negates its value. */
  lemma ParseIntAtMinus(s: string, v: int)
    requires s != [] && s[0] == '-' && ParseDigitRun(s[1..]) == Some(v)
    ensures ParseInt(s) == Some(-v)
  {
    assert !IsSpace(s[0]);
    assert SkipSpace(s) == s;
  }

  /** The digits of m followed by a space form a digit run worth m. */
  lemma DecimalRunBeforeSpace(m: nat, rest: string)
    requires rest != [] && rest[0] == ' '
    ensures ParseDigitRun(Decimal(m) + rest) == Some(m)
  {
    DigitRunBeforeSpace(Decimal(m), rest);
    ValueOfDecimal(m);
  }

  /** A negative number's spelling, followed by more text, starts with a
      minus sign and continues with the digits of its size. */
  lemma NegativeSpelling(n: int, rest: string)
    requires n < 0
    ensures (IntToString(n) + rest)[0] == '-'
    ensures (IntToString(n) + rest)[1..] == Decimal(-n) + rest
  {
    assert IntToString(n) + rest == "-" + (Decimal(-n) + rest);
  }

  lemma ParseNegativeBeforeSpace(n: int, rest: string)
    requires n < 0 && rest != [] && rest[0] == ' '
    ensures ParseInt(IntToString(n) + rest) == Some(n)
  {
    NegativeSpelling(n, rest);
    DecimalRunBeforeSpace(-n, rest);
    ParseIntAtMinus(IntToString(n) + rest, -n);
  }

  lemma ParseNaturalBeforeSpace(n: int, rest: string)
    requires n >= 0 && rest != [] && rest[0] == ' '
    ensures ParseInt(IntToString(n) + rest) == Some(n)
  {
    var t := Decimal(n) + rest;
    assert ParseDigitRun(t) == Some(n) by { DecimalRunBeforeSpace(n, rest); }
    assert IntToString(n) + rest == t;
    assert IsDigit(t[0]) by { assert t[0] == Decimal(n)[0]; }
    ParseIntAtDigit(t);
  }

  /** A number spelled out and followed by a space parses back to itself. */
  lemma ParseLeadingNumber(n: int, rest: string)
    requires rest != [] && rest[0] == ' '
    ensures ParseInt(IntToString(n) + rest) == Some(n)
  {
    if n < 0 {
      ParseNegativeBeforeSpace(n, rest);
    } else {
      ParseNaturalBeforeSpace(n, rest);
    }
  }

  /** parseInt of the displayed question reads back its first operand: the
      space after it ends the number. */
  lemma DisplayLeadsWithFirstOperand(q: Question)
    ensures ParseInt(Display(q)) == Some(q.a)
  {
    var rest := " " + Symbol(q.op) + " " + IntToString(q.b);
    assert Display(q) == IntToString(q.a) + rest;
    ParseLeadingNumber(q.a, rest);
  }

  /** A non-empty run of digits parses to the number it spells. */
  lemma ParseDigits(s: string)
    requires s != [] && forall i :: 0 <= i < |s| ==> IsDigit(s[i])
    ensures ParseInt(s) == Some(Value(s) as int)
  {
    var c := s[0];
    assert IsDigit(c);
    assert !IsSpace(c) && c != '-' && c != '+';
    assert SkipSpace(s) == s;
    DigitPrefixOfDigits(s);
    assert ParseDigitRun(s) == Some(Value(s) as int);
  }

  lemma {:induction false} DecimalLength(n: nat)
    ensures n < 10 ==> |Decimal(n)| == 1
    ensures n < 100 ==> |Decimal(n)| <= 2
    ensures n < 1000 ==> |Decimal(n)| <= 3
    ensures n < 10000 ==> |Decimal(n)| <= 4
    decreases n
  {
    if n >= 10 {
      DecimalLength(n / 10);
    }
  }

  // ---------------------------------------------------------------------------
  // Panel state
  // ---------------------------------------------------------------------------

  datatype Feedback = Correct | Wrong

  datatype Panel = Panel(question: Question, input: string, feedback: Option<Feedback>,
                         wrongEntry: string)

  /** The buffer-length limit the numpad enforces. */
  const MaxInput: nat := 4
  const Backspace: char := '⌫'

  /** The numpad keys, row by row. */
  const PadRows: seq<seq<char>> := [['7', '8', '9'], ['4', '5', '6'], ['1', '2', '3'], ['0', Backspace]]

  predicate PadKey(k: char)
  {
    exists row :: row in PadRows && k in row
  }

  /** Every digit has a key, and the only other key is backspace. */
  lemma PadKeysAreDigitsAndBackspace(k: char)
    ensures PadKey(k) <==> IsDigit(k) || k == Backspace
  {
    if IsDigit(k) {
      var d := DigitVal(k);
      assert k == DigitChar(d);
      if d >= 7 { assert k in PadRows[0]; }
      else if d >= 4 { assert k in PadRows[1]; }
      else if d >= 1 { assert k in PadRows[2]; }
      else { assert k in PadRows[3]; }
    } else if k == Backspace {
      assert k in PadRows[3];
    }
  }

  /** Buttons are disabled outside play and while feedback is shown. */
  predicate Disabled(playing: bool, p: Panel)
  {
    !playing || p.feedback.Some?
  }

  predicate CanSubmit(playing: bool, p: Panel)
  {
    playing && p.feedback.None? && !Blank(p.input)
  }

  /** The submit button is never enabled while the pad is disabled. */
  lemma CanSubmitEnabled(playing: bool, p: Panel)
    ensures CanSubmit(playing, p) ==> !Disabled(playing, p)
    ensures !Disabled(playing, p) ==> (CanSubmit(playing, p) <==> !Blank(p.input))
  {
  }

  /** Loading a question (on the timer after feedback, or when play
      begins) clears the buffer and the feedback. */
  function NextQuestion(p: Panel, q: Question): (r: Panel)
    ensures r.question == q && r.input == [] && r.feedback.None? && r.wrongEntry == []
    ensures CanSubmit(true, r) == false && !Disabled(true, r)
  {
    Panel(q, [], None, [])
  }

  /** One numpad key press. */
  function HandleNumpad(playing: bool, p: Panel, key: char): (r: Panel)
    ensures Disabled(playing, p) ==> r == p
    ensures r.question == p.question && r.feedback == p.feedback && r.wrongEntry == p.wrongEntry
    ensures !Disabled(playing, p) && key == Backspace ==>
      r.input == if p.input == [] then [] else p.input[..|p.input| - 1]
    ensures !Disabled(playing, p) && key != Backspace ==>
      r.input == if |p.input| < MaxInput then p.input + [key] else p.input
    // the pad alone never lengthens a buffer past MaxInput
    ensures |r.input| <= |p.input| || |r.input| <= MaxInput
  {
    if Disabled(playing, p) then p
    else if key == Backspace then
      p.(input := if p.input == [] then [] else p.input[..|p.input| - 1])
    else
      p.(input := if |p.input| < MaxInput then p.input + [key] else p.input)
  }

  /** Backspace undoes a digit the buffer had room for. */
  lemma BackspaceUndoesDigit(playing: bool, p: Panel, key: char)
    requires !Disabled(playing, p) && key != Backspace && |p.input| < MaxInput
    ensures HandleNumpad(playing, HandleNumpad(playing, p, key), Backspace) == p
  {
    var q := HandleNumpad(playing, p, key);
    assert q.input[..|q.input| - 1] == p.input;
  }

  function TypeKeys(playing: bool, p: Panel, keys: seq<char>): Panel
    decreases |keys|
  {
    if keys == [] then p else TypeKeys(playing, HandleNumpad(playing, p, keys[0]), keys[1..])
  }

  /** Typing digits that fit appends them; typing anything keeps a buffer
      of at most MaxInput characters within MaxInput. */
  lemma {:induction false} TypeDigits(playing: bool, p: Panel, keys: seq<char>)
    requires !Disabled(playing, p)
    ensures var r := TypeKeys(playing, p, keys);
      r.question == p.question && r.feedback == p.feedback && r.wrongEntry == p.wrongEntry
    ensures |p.input| <= MaxInput ==> |TypeKeys(playing, p, keys).input| <= MaxInput
    ensures (forall i :: 0 <= i < |keys| ==> keys[i] != Backspace) && |p.input| + |keys| <= MaxInput
      ==> TypeKeys(playing, p, keys).input == p.input + keys
    decreases |keys|
  {
    if keys != [] {
      var q := HandleNumpad(playing, p, keys[0]);
      TypeDigits(playing, q, keys[1..]);
      if (forall i :: 0 <= i < |keys| ==> keys[i] != Backspace) && |p.input| + |keys| <= MaxInput {
        assert q.input == p.input + [keys[0]];
        assert forall i :: 0 <= i < |keys[1..]| ==> keys[1..][i] != Backspace;
        assert p.input + [keys[0]] + keys[1..] == p.input + keys;
      }
    }
  }

  /** The keyboard field, shown only during play and locked while feedback
      is shown, replaces the whole buffer with whatever it holds. */
  function KeyboardEdit(playing: bool, p: Panel, text: string): (r: Panel)
    ensures Disabled(playing, p) ==> r == p
    ensures !Disabled(playing, p) ==> r.input == text
    ensures r.question == p.question && r.feedback == p.feedback && r.wrongEntry == p.wrongEntry
  {
    if Disabled(playing, p) then p else p.(input := text)
  }

  /** The four-character limit belongs to the numpad only: during play the
      keyboard field accepts a longer entry, which the pad then refuses to
      lengthen; outside play or with feedback shown the field changes
      nothing. */
  lemma KeyboardBypassesLimit(playing: bool, p: Panel, key: char)
    requires key != Backspace
    ensures !Disabled(playing, p) ==>
      && |KeyboardEdit(playing, p, "12345").input| > MaxInput
      && HandleNumpad(playing, KeyboardEdit(playing, p, "12345"), key) == KeyboardEdit(playing, p, "12345")
    ensures Disabled(playing, p) ==> KeyboardEdit(playing, p, "12345") == p
  {
  }

  /** An answer of any size typed on the keyboard scores, where the pad
      stops at four digits. */
  lemma KeyboardAnswerScores(p: Panel, n: nat)
    requires p.feedback.None? && p.question.answer == n
    ensures HandleSubmit(true, KeyboardEdit(true, p, Decimal(n))).calledOnCorrect
  {
    var typed := KeyboardEdit(true, p, Decimal(n));
    assert typed.input == Decimal(n);
    assert !Blank(typed.input) by { assert IsDigit(Decimal(n)[0]); }
    ParseDecimal(n);
  }

  /** The outcome of a submit: the new panel and whether the player's
      correct answer is reported to the game. */
  datatype SubmitResult = SubmitResult(panel: Panel, calledOnCorrect: bool)

  function HandleSubmit(playing: bool, p: Panel): (r: SubmitResult)
    // the game hears of the answer exactly when it may be submitted and parses to the answer
    ensures r.calledOnCorrect <==> CanSubmit(playing, p) && ParseInt(p.input) == Some(p.question.answer)
    // nothing happens unless it may be submitted and parses to a number
    ensures !CanSubmit(playing, p) || ParseInt(p.input).None? ==> r.panel == p
    ensures r.calledOnCorrect ==> r.panel == p.(feedback := Some(Correct))
    ensures CanSubmit(playing, p) && ParseInt(p.input).Some? && !r.calledOnCorrect ==>
      r.panel == p.(feedback := Some(Wrong), wrongEntry := p.input)
  {
    if !CanSubmit(playing, p) then SubmitResult(p, false)
    else match ParseInt(p.input)
      case None => SubmitResult(p, false)
      case Some(val) =>
        if val == p.question.answer then SubmitResult(p.(feedback := Some(Correct)), true)
        else SubmitResult(p.(feedback := Some(Wrong), wrongEntry := p.input), false)
  }

  /** A submitted answer locks the panel until the next question: a second
      submit, or any key, changes nothing. */
  lemma NoDoubleSubmit(playing: bool, p: Panel, key: char)
    requires CanSubmit(playing, p) && ParseInt(p.input).Some?
    ensures var q := HandleSubmit(playing, p).panel;
      && Disabled(playing, q)
      && HandleSubmit(playing, q) == SubmitResult(q, false)
      && HandleNumpad(playing, q, key) == q
  {
  }

  /** A player who types the digits of a (non-negative, at most four digit)
      answer on a fresh question and submits scores a point. */
  lemma TypingTheAnswerScores(p: Panel, q: Question)
    requires 0 <= q.answer < 10000
    ensures var typed := TypeKeys(true, NextQuestion(p, q), Decimal(q.answer));
      && typed.input == Decimal(q.answer)
      && HandleSubmit(true, typed).calledOnCorrect
  {
    var s := Decimal(q.answer);
    DecimalLength(q.answer);
    assert forall i :: 0 <= i < |s| ==> s[i] != Backspace by {
      forall i | 0 <= i < |s| ensures s[i] != Backspace { assert IsDigit(s[i]); }
    }
    TypeDigits(true, NextQuestion(p, q), s);
    var typed := TypeKeys(true, NextQuestion(p, q), s);
    assert [] + s == s;
    assert typed.input == s && typed.question == q && typed.feedback.None?;
    assert !Blank(typed.input) by { assert IsDigit(s[0]); }
    ParseDecimal(q.answer);
  }

  /** Every question the generator produces can be answered on the pad. */
  lemma GeneratedAnswersFitThePad(uOp: real, u1: real, u2: real)
    requires InUnit(uOp) && InUnit(u1) && InUnit(u2)
    ensures var q := GenerateQuestion(uOp, u1, u2);
      0 <= q.answer < 10000 && |Decimal(q.answer)| <= MaxInput
  {
    var q := GenerateQuestion(uOp, u1, u2);
    DecimalLength(q.answer);
  }
}
