/** Escaping of a user name for a SPARQL string literal (the `mwapi:garvuser "%s"`
    parameter of the per-user query), and the SPARQL 1.1 reading of the
    literal's body that it has to survive. */
module SparqlEscape {
  import opened Wrappers
  import opened PyStrings

  /** `user_name.replace(' ', '_').replace('\\', '\\\\').replace('"', r'\"')`:
      spaces first, then backslashes doubled, then quotes escaped. */
  function EscapeUserName(name: string): (r: string)
    ensures ' ' !in r
  {
    var noSpaces := ReplaceChar(name, ' ', "_");
    var backslashesDoubled := ReplaceChar(noSpaces, '\\', "\\\\");
    ReplaceCharChars(name, ' ', "_", ' ');
    ReplaceCharChars(noSpaces, '\\', "\\\\", ' ');
    ReplaceCharChars(backslashesDoubled, '"', "\\\"", ' ');
    ReplaceChar(backslashesDoubled, '"', "\\\"")
  }

  /** The character that `\c` stands for in a SPARQL string (the ECHAR
      escapes of section 19.7 of the SPARQL 1.1 Query Language). */
  function EscapedChar(c: char): Option<char> {
    match c
    case 't' => Some('\t')
    case 'b' => Some('\U{8}')
    case 'n' => Some('\n')
    case 'r' => Some('\r')
    case 'f' => Some('\U{C}')
    case '"' => Some('"')
    case '\'' => Some('\'')
    case '\\' => Some('\\')
    case _ => None
  }

  /** The value of a STRING_LITERAL2 (a double-quoted literal) whose body,
      between the quotes, is `s`; None when `s` is not a valid body: a bare
      `"` (which would close the literal), a line break, a lone or unknown
      backslash escape. Only the ECHAR escapes of the body are read; the
      `\u`/`\U` codepoint pass over the whole query text is not applied. */
  function Unescape(s: string): Option<string>
    decreases |s|
  {
    if s == [] then Some([])
    else if s[0] == '\\' then
      if |s| >= 2 && EscapedChar(s[1]).Some? then
        match Unescape(s[2..])
        case Some(t) => Some([EscapedChar(s[1]).value] + t)
        case None => None
      else None
    else if s[0] == '"' || s[0] == '\n' || s[0] == '\r' then None
    else
      match Unescape(s[1..])
      case Some(t) => Some([s[0]] + t)
      case None => None
  }

  /** The name with every space replaced by `_` and nothing else changed. */
  function SpacesToUnderscores(name: string): (r: string)
    ensures |r| == |name|
  {
    seq(|name|, i requires 0 <= i < |name| => if name[i] == ' ' then '_' else name[i])
  }

  /** What the three replacements make of one character. */
  function EscapeChar(c: char): string {
    if c == ' ' then "_"
    else if c == '\\' then "\\\\"
    else if c == '"' then "\\\""
    else [c]
  }

  /** The replacement chain escapes the name one character at a time. */
  lemma {:induction false} EscapeUserNameCons(name: string)
    requires name != []
    ensures EscapeUserName(name) == EscapeChar(name[0]) + EscapeUserName(name[1..])
  {
    var c, rest := name[0], name[1..];
    assert name == [c] + rest;
    ReplaceCharConcat([c], rest, ' ', "_");
    var a1, b1 := ReplaceChar([c], ' ', "_"), ReplaceChar(rest, ' ', "_");
    ReplaceCharConcat(a1, b1, '\\', "\\\\");
    var a2, b2 := ReplaceChar(a1, '\\', "\\\\"), ReplaceChar(b1, '\\', "\\\\");
    ReplaceCharConcat(a2, b2, '"', "\\\"");
  }

  /** Reading back one escaped character in front of the rest of the body. */
  lemma UnescapeEscapeChar(c: char, tail: string, t: string)
    requires c != '\n' && c != '\r' && Unescape(tail) == Some(t)
    ensures Unescape(EscapeChar(c) + tail) == Some([if c == ' ' then '_' else c] + t)
  {
    var e := EscapeChar(c);
    if c == '\\' || c == '"' {
      assert (e + tail)[0] == '\\' && (e + tail)[1] == c && (e + tail)[2..] == tail;
    } else {
      assert (e + tail)[0] == e[0] && (e + tail)[1..] == tail;
    }
  }

  lemma SpacesToUnderscoresCons(name: string)
    requires name != []
    ensures SpacesToUnderscores(name)
         == [if name[0] == ' ' then '_' else name[0]] + SpacesToUnderscores(name[1..])
  {
  }

  /** Reading back the literal body gives exactly the user name with spaces
      turned into underscores: every `\` and `"` of the name survives as
      itself and no bare `"` can end the literal early. A raw line break is
      not escaped and is not allowed in the body, so the name must not hold
      one. */
  lemma {:induction false} EscapeRoundTrip(name: string)
    requires '\n' !in name && '\r' !in name
    ensures Unescape(EscapeUserName(name)) == Some(SpacesToUnderscores(name))
  {
    if name != [] {
      var tail := EscapeUserName(name[1..]);
      EscapeUserNameCons(name);
      EscapeRoundTrip(name[1..]);
      UnescapeEscapeChar(name[0], tail, SpacesToUnderscores(name[1..]));
      SpacesToUnderscoresCons(name);
    }
  }

  /** Whether `s`, placed between the quotes of a double-quoted literal, is
      scanned to its end without a `"` closing the literal: a backslash
      takes the character after it along, whatever that is, and any other
      `"` ends the literal. */
  predicate StaysInsideLiteral(s: string)
    decreases |s|
  {
    if s == [] then true
    else if s[0] == '"' then false
    else if s[0] == '\\' then |s| >= 2 && StaysInsideLiteral(s[2..])
    else StaysInsideLiteral(s[1..])
  }

  lemma StaysInsideLiteralCons(c: char, tail: string)
    requires StaysInsideLiteral(tail)
    ensures StaysInsideLiteral(EscapeChar(c) + tail)
  {
    var e := EscapeChar(c);
    if c == '\\' || c == '"' {
      assert (e + tail)[0] == '\\' && (e + tail)[2..] == tail;
    } else {
      assert (e + tail)[0] == e[0] && (e + tail)[1..] == tail;
    }
  }

  /** Whatever the name holds (line breaks and `\u` sequences included),
      the escaped name never ends the literal early: the text that follows
      it in the query stays outside the user's reach. */
  lemma {:induction false} EscapedNameStaysInsideLiteral(name: string)
    ensures StaysInsideLiteral(EscapeUserName(name))
  {
    if name == [] {
      assert EscapeUserName(name) == [];
    } else {
      EscapeUserNameCons(name);
      EscapedNameStaysInsideLiteral(name[1..]);
      StaysInsideLiteralCons(name[0], EscapeUserName(name[1..]));
    }
  }
}
