/** Splitting text at newlines, as the dump parser and the per-satellite logs do. */
module TextLines {

  /** The newline-terminated lines of a text, without their newlines. */
  function Lines(s: string): seq<string> {
    if s == [] then []
    else if s[|s| - 1] == '\n' then Lines(s[..|s| - 1]) + [Tail(s[..|s| - 1])]
    else Lines(s[..|s| - 1])
  }

  /** What follows the last newline. */
  function Tail(s: string): string {
    if s == [] || s[|s| - 1] == '\n' then [] else Tail(s[..|s| - 1]) + [s[|s| - 1]]
  }

  function Join(lines: seq<string>): string {
    if lines == [] then [] else Join(lines[..|lines| - 1]) + lines[|lines| - 1] + "\n"
  }

  lemma {:induction false} Regroup(a: string, b: string, c: string)
    ensures (a + b) + c == a + (b + c)
  {
  }

  predicate Plain(s: string) { '\n' !in s }

  /** One more character: what the splitting loops do with it. */
  lemma {:induction false} OneMore(s: string, c: char)
    ensures Lines(s + [c]) == if c == '\n' then Lines(s) + [Tail(s)] else Lines(s)
    ensures Tail(s + [c]) == if c == '\n' then [] else Tail(s) + [c]
  {
    assert (s + [c])[..|s + [c]| - 1] == s;
  }

  /** Splitting loses nothing: the lines with their newlines and the unterminated rest are the text. */
  lemma {:induction false} LinesPartition(s: string)
    ensures Join(Lines(s)) + Tail(s) == s
    ensures Plain(Tail(s)) && forall i :: 0 <= i < |Lines(s)| ==> Plain(Lines(s)[i])
  {
    if s != [] {
      var init, c := s[..|s| - 1], s[|s| - 1];
      LinesPartition(init);
      assert init + [c] == s;
      if c == '\n' {
        assert Lines(s)[..|Lines(s)| - 1] == Lines(init);
      } else {
        assert Join(Lines(init)) + (Tail(init) + [c]) == s;
      }
    }
  }

  lemma {:induction false} PlainTail(s: string, t: string)
    requires Plain(t)
    ensures Lines(s + t) == Lines(s) && Tail(s + t) == Tail(s) + t
  {
    if t == [] {
      assert s + t == s;
    } else {
      var init, c := t[..|t| - 1], t[|t| - 1];
      PlainTail(s, init);
      assert init + [c] == t;
      Regroup(s, init, [c]);
      OneMore(s + init, c);
      Regroup(Tail(s), init, [c]);
    }
  }

  /** And it is the only way to split: joined plain lines come apart into themselves. */
  lemma {:induction false} JoinThenSplit(lines: seq<string>, rest: string)
    requires Plain(rest) && forall i :: 0 <= i < |lines| ==> Plain(lines[i])
    ensures Lines(Join(lines) + rest) == lines && Tail(Join(lines) + rest) == rest
  {
    PlainTail(Join(lines), rest);
    if lines != [] {
      var init, last := lines[..|lines| - 1], lines[|lines| - 1];
      JoinThenSplit(init, last);
      OneMore(Join(init) + last, '\n');
      assert init + [last] == lines;
    }
    assert [] + rest == rest;
  }
}
