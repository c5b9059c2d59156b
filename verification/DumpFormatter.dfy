/**
 The sink that indents dumps while they are written: four spaces for each open brace at the
 start of every non-empty line.
 */
module DumpFormatters {

  const INDENT := "    "

  // The sink's state between two characters.
  datatype Position = Position(level: int, indentNext: bool)

  const START := Position(0, false)

  function Step(p: Position, c: char): Position {
    var level := if c == '{' then p.level + 1 else if c == '}' then p.level - 1 else p.level;
    Position(level, c == '\n')
  }

  // The level the indentation in front of c is for: a leading close brace already counts.
  function LevelAt(p: Position, c: char): int {
    if c == '}' then p.level - 1 else p.level
  }

  function Spaces(level: int): (r: string)
    ensures |r| == if level > 0 then 4 * level else 0
    ensures forall i :: 0 <= i < |r| ==> r[i] == ' '
    decreases if level > 0 then level else 0
  {
    if level > 0 then Spaces(level - 1) + INDENT else ""
  }

  function Emit(p: Position, c: char): string {
    (if p.indentNext && c != '\n' then Spaces(LevelAt(p, c)) else "") + [c]
  }

  function After(p: Position, s: string): Position
    decreases |s|
  {
    if s == "" then p else Step(After(p, s[..|s| - 1]), s[|s| - 1])
  }

  // All that is written for s.
  function Format(p: Position, s: string): string
    decreases |s|
  {
    if s == "" then "" else Format(p, s[..|s| - 1]) + Emit(After(p, s[..|s| - 1]), s[|s| - 1])
  }

  class DumpFormatterSink {
    var target: string
    var level: int
    var indentNext: bool

    function AsPosition(): Position
      reads this
    {
      Position(level, indentNext)
    }

    constructor ()
      ensures target == "" && AsPosition() == START
    {
      target, level, indentNext := "", 0, false;
    }

    // The counter is 32 bits wide.
    method Write(s: string) returns (n: nat)
      requires |s| < 0x1_0000_0000
      modifies this
      ensures n == |s|
      ensures target == old(target) + Format(old(AsPosition()), s)
      ensures AsPosition() == After(old(AsPosition()), s)
    {
      for i := 0 to |s|
        invariant target == old(target) + Format(old(AsPosition()), s[..i])
        invariant AsPosition() == After(old(AsPosition()), s[..i])
      {
        assert s[..i + 1][..i] == s[..i];
        Put(s[i]);
      }
      assert s[..|s|] == s;
      n := |s|;
    }

    method Put(c: char)
      modifies this
      ensures target == old(target) + Emit(old(AsPosition()), c)
      ensures AsPosition() == Step(old(AsPosition()), c)
    {
      match c
      case '{' =>
        IndentIfNeeded();
        level := level + 1;
        target := target + "{";
      case '}' =>
        level := level - 1;
        IndentIfNeeded();
        target := target + "}";
      case '\n' =>
        indentNext := true;
        target := target + "\n";
      case _ =>
        IndentIfNeeded();
        target := target + [c];
    }

    method IndentIfNeeded()
      modifies this
      ensures level == old(level) && !indentNext
      ensures target == old(target) + if old(indentNext) then Spaces(level) else ""
    {
      if indentNext {
        var i := 0;
        while i < level
          invariant 0 <= i && (i <= level || i == 0)
          invariant level == old(level) && target == old(target) + Spaces(i)
        {
          target := target + INDENT;
          i := i + 1;
        }
        indentNext := false;
      }
    }
  }

  // Where a stream is cut into writes makes no difference.
  lemma {:induction false} ChunkIndependent(p: Position, a: string, b: string)
    ensures After(p, a + b) == After(After(p, a), b)
    ensures Format(p, a + b) == Format(p, a) + Format(After(p, a), b)
    decreases |b|
  {
    if b == "" {
      assert a + b == a;
    } else {
      assert (a + b)[..|a + b| - 1] == a + b[..|b| - 1];
      ChunkIndependent(p, a, b[..|b| - 1]);
    }
  }

  // The number of open braces in s[..k] without a close brace, or minus the number of close
  // braces too many.
  function Depth(s: string, k: nat): int
    requires k <= |s|
  {
    if k == 0 then 0
    else Depth(s, k - 1) + if s[k - 1] == '{' then 1 else if s[k - 1] == '}' then -1 else 0
  }

  // What belongs in front of the k-th character of a dump, from the dump alone.
  function IndentationOf(s: string, k: nat): string
    requires k < |s|
  {
    if k > 0 && s[k - 1] == '\n' && s[k] != '\n' then
      Spaces(Depth(s, if s[k] == '}' then k + 1 else k))
    else ""
  }

  function Indented(s: string, k: nat): string
    requires k <= |s|
  {
    if k == 0 then "" else Indented(s, k - 1) + (IndentationOf(s, k - 1) + [s[k - 1]])
  }

  lemma {:induction false} PositionIsDepth(s: string, k: nat)
    requires k <= |s|
    ensures After(START, s[..k]) == Position(Depth(s, k), k > 0 && s[k - 1] == '\n')
  {
    if k > 0 {
      PositionIsDepth(s, k - 1);
      assert s[..k][..k - 1] == s[..k - 1];
    }
  }

  lemma FormatsOneMore(s: string, k: nat)
    requires k < |s|
    ensures Format(START, s[..k + 1]) == Format(START, s[..k]) + (IndentationOf(s, k) + [s[k]])
  {
    assert s[..k + 1][..k] == s[..k];
    PositionIsDepth(s, k);
    assert Emit(After(START, s[..k]), s[k]) == IndentationOf(s, k) + [s[k]];
  }

  lemma {:induction false} FormatsPrefix(s: string, k: nat)
    requires k <= |s|
    ensures Format(START, s[..k]) == Indented(s, k)
  {
    if k > 0 {
      FormatsPrefix(s, k - 1);
      FormatsOneMore(s, k - 1);
    }
  }

  // Each non-empty line but the first gets exactly four spaces for each open brace, and
  // nothing else is added.
  lemma FormatIndents(s: string)
    ensures Format(START, s) == Indented(s, |s|)
  {
    FormatsPrefix(s, |s|);
    assert s[..|s|] == s;
  }

  // Removes indentation: the inverse of formatting, reading the formatted dump from its start.
  function Strip(p: Position, t: string): string
    decreases |t|
  {
    if t == "" then ""
    else
      var n := if p.indentNext then IndentationLength(p.level, t) else 0;
      if n < |t| then [t[n]] + Strip(Step(p, t[n]), t[n + 1..]) else t
  }

  // How much of a line's start is indentation.
  function IndentationLength(level: int, t: string): nat
    requires t != ""
  {
    if t[0] == '\n' then 0
    else if Spaces(level - 1) + "}" <= t then |Spaces(level - 1)|
    else |Spaces(level)|
  }

  lemma IndentationFound(p: Position, c: char, rest: string)
    requires p.indentNext && c != '\n'
    ensures IndentationLength(p.level, Emit(p, c) + rest) == |Spaces(LevelAt(p, c))|
  {
    var t := Emit(p, c) + rest;
    var less := |Spaces(p.level - 1)|;
    if c == '}' {
      assert t[..less + 1] == Spaces(p.level - 1) + "}";
    } else if Spaces(p.level - 1) + "}" <= t {
      assert t[less] == (Spaces(p.level - 1) + "}")[less];
      assert p.level <= 0;
    }
  }

  lemma StripsCharacter(p: Position, c: char, rest: string)
    ensures Strip(p, Emit(p, c) + rest) == [c] + Strip(Step(p, c), rest)
  {
    var formatted := Emit(p, c) + rest;
    var n := |Emit(p, c)| - 1;
    assert formatted[n] == c && formatted[n + 1..] == rest;
    if p.indentNext && c != '\n' {
      IndentationFound(p, c, rest);
    }
  }

  lemma {:induction false} StripInverts(p: Position, s: string)
    ensures Strip(p, Format(p, s)) == s
    decreases |s|
  {
    if s != "" {
      var c := s[..1];
      assert s == c + s[1..];
      ChunkIndependent(p, c, s[1..]);
      assert c[..0] == "" && Format(p, c) == Emit(p, s[0]) && After(p, c) == Step(p, s[0]);
      StripsCharacter(p, s[0], Format(Step(p, s[0]), s[1..]));
      StripInverts(Step(p, s[0]), s[1..]);
    }
  }

  // No two dumps look the same when formatted, balanced or not.
  lemma FormatIsInjective(s: string, t: string)
    requires Format(START, s) == Format(START, t)
    ensures s == t
  {
    StripInverts(START, s);
    StripInverts(START, t);
  }
}
