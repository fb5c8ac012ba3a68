/** Label text in the DOT output. */
module Labels {
  import opened Wrappers

  /** `str.replace` for a pattern of one character. */
  function Replace(s: string, c: char, with_: string): string {
    if s == [] then [] else (if s[0] == c then with_ else [s[0]]) + Replace(s[1..], c, with_)
  }

  function DotText(value: string): string {
    Replace(Replace(Replace(value, '\\', "\\\\"), '"', "\\\""), '\n', "\\n")
  }

  function EscapeChar(c: char): string {
    if c == '\\' then "\\\\" else if c == '"' then "\\\"" else if c == '\n' then "\\n" else [c]
  }

  /** One pass, one character at a time. */
  function Escape(s: string): string {
    if s == [] then [] else EscapeChar(s[0]) + Escape(s[1..])
  }

  lemma {:induction false} ReplaceConcat(s: string, t: string, c: char, with_: string)
    ensures Replace(s + t, c, with_) == Replace(s, c, with_) + Replace(t, c, with_)
  {
    if s == [] {
      assert s + t == t;
    } else {
      assert (s + t)[0] == s[0] && (s + t)[1..] == s[1..] + t;
      ReplaceConcat(s[1..], t, c, with_);
    }
  }

  lemma {:induction false} ReplaceOne(x: char, c: char, with_: string)
    ensures Replace([x], c, with_) == if x == c then with_ else [x]
  {
    assert Replace([x][1..], c, with_) == [];
  }

  lemma {:induction false} ReplaceTwo(x: char, y: char, c: char, with_: string)
    requires x != c && y != c
    ensures Replace([x, y], c, with_) == [x, y]
  {
    ReplaceConcat([x], [y], c, with_);
    ReplaceOne(x, c, with_);
    ReplaceOne(y, c, with_);
    assert [x, y] == [x] + [y];
  }

  lemma {:induction false} DotTextOne(x: char)
    ensures DotText([x]) == EscapeChar(x)
  {
    hide Replace;
    ReplaceOne(x, '\\', "\\\\");
    ReplaceTwo('\\', '\\', '"', "\\\"");
    ReplaceTwo('\\', '\\', '\n', "\\n");
    ReplaceOne(x, '"', "\\\"");
    ReplaceTwo('\\', '"', '\n', "\\n");
    ReplaceOne(x, '\n', "\\n");
  }

  /** The three replacements never touch each other's output: together they are one escape per character. */
  lemma {:induction false} DotTextIsEscape(s: string)
    ensures DotText(s) == Escape(s)
  {
    if s != [] {
      var x, t := [s[0]], s[1..];
      assert s == x + t;
      DotTextOne(s[0]);
      DotTextIsEscape(t);
      hide Replace, EscapeChar;
      ReplaceConcat(x, t, '\\', "\\\\");
      var x1, t1 := Replace(x, '\\', "\\\\"), Replace(t, '\\', "\\\\");
      ReplaceConcat(x1, t1, '"', "\\\"");
      ReplaceConcat(Replace(x1, '"', "\\\""), Replace(t1, '"', "\\\""), '\n', "\\n");
    }
  }

  /** Read a quoted label: up to the first quote that is not escaped, undoing the escapes. */
  function Unquote(text: string): Option<(string, string)> {
    if text == [] then None
    else if text[0] == '"' then Some(("", text[1..]))
    else if text[0] == '\\' then
      if |text| == 1 then None
      else
        var rest := Unquote(text[2..]);
        if rest.None? then None
        else Some(([if text[1] == 'n' then '\n' else text[1]] + rest.value.0, rest.value.1))
    else
      var rest := Unquote(text[1..]);
      if rest.None? then None else Some(([text[0]] + rest.value.0, rest.value.1))
  }

  lemma {:induction false} UnquoteChar(c: char, text: string)
    ensures var rest := Unquote(text);
            Unquote(EscapeChar(c) + text)
            == if rest.None? then None else Some(([c] + rest.value.0, rest.value.1))
  {
    var e := EscapeChar(c);
    assert (e + text)[|e|..] == text;
    assert forall i :: 0 <= i < |e| ==> (e + text)[i] == e[i];
  }

  lemma {:induction false} UnquoteEscaped(s: string, rest: string)
    ensures Unquote(Escape(s) + ['"'] + rest) == Some((s, rest))
  {
    if s == [] {
      assert Escape(s) + ['"'] + rest == ['"'] + rest;
    } else {
      UnquoteEscaped(s[1..], rest);
      hide Unquote, EscapeChar;
      UnquoteChar(s[0], Escape(s[1..]) + ['"'] + rest);
      assert Escape(s) + ['"'] + rest == EscapeChar(s[0]) + (Escape(s[1..]) + ['"'] + rest);
      assert s == [s[0]] + s[1..];
    }
  }

  lemma {:induction false} EscapeOneLine(s: string)
    ensures '\n' !in Escape(s)
  {
    if s != [] {
      EscapeOneLine(s[1..]);
    }
  }

  /** A label ends at its own closing quote and stays on its line, and the text in between gives the label back. */
  lemma {:induction false} LabelReadsBack(value: string, rest: string)
    ensures Unquote(DotText(value) + ['"'] + rest) == Some((value, rest))
    ensures '\n' !in DotText(value)
  {
    DotTextIsEscape(value);
    UnquoteEscaped(value, rest);
    EscapeOneLine(value);
  }
}
