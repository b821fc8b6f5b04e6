/** Drive search-query strings built by string concatenation, and the
    `escapeQ` escaping that keeps a folder id or search text inside its
    single-quoted literal (api/admin/index-drive.ts and api/drive/media.ts
    carry identical copies). */
module DriveQuery {
  import opened Wrappers

  const FolderMime: string := "application/vnd.google-apps.folder"

  /** `s.replace(/c/g, with)`. */
  function ReplaceAll(s: string, c: char, with: string): (r: string)
    ensures c !in s ==> r == s
    decreases |s|
  {
    if s == [] then [] else (if s[0] == c then with else [s[0]]) + ReplaceAll(s[1..], c, with)
  }

  /** `escapeQ`: first every backslash is doubled, then every single quote is
      preceded by a backslash. */
  function EscapeQ(s: string): string {
    ReplaceAll(ReplaceAll(s, '\\', "\\\\"), '\'', "\\'")
  }

  /** The escape of one character. */
  function EscapeChar(c: char): string {
    if c == '\\' then "\\\\" else if c == '\'' then "\\'" else [c]
  }

  lemma {:induction false} ReplaceAllAppend(a: string, b: string, c: char, with: string)
    ensures ReplaceAll(a + b, c, with) == ReplaceAll(a, c, with) + ReplaceAll(b, c, with)
    decreases |a|
  {
    if a != [] {
      assert (a + b)[0] == a[0] && (a + b)[1..] == a[1..] + b;
      ReplaceAllAppend(a[1..], b, c, with);
      var h := if a[0] == c then with else [a[0]];
      calc {
        ReplaceAll(a + b, c, with);
        h + ReplaceAll(a[1..] + b, c, with);
        h + (ReplaceAll(a[1..], c, with) + ReplaceAll(b, c, with));
        (h + ReplaceAll(a[1..], c, with)) + ReplaceAll(b, c, with);
      }
    } else {
      assert a + b == b;
    }
  }

  /** The two global replacements act character by character. */
  lemma EscapeQCons(s: string)
    requires s != []
    ensures EscapeQ(s) == EscapeChar(s[0]) + EscapeQ(s[1..])
  {
    var head := if s[0] == '\\' then "\\\\" else [s[0]];
    ReplaceAllAppend(head, ReplaceAll(s[1..], '\\', "\\\\"), '\'', "\\'");
  }

  /** Reads a query-language string literal whose opening quote is already
      consumed: a backslash takes the next character literally, an unescaped
      quote ends the literal. Gives the literal's text and what follows it. */
  function ReadLiteral(s: string): Option<(string, string)>
    decreases |s|
  {
    if s == [] then None
    else if s[0] == '\'' then Some(([], s[1..]))
    else if s[0] == '\\' then
      if |s| < 2 then None
      else match ReadLiteral(s[2..])
        case None => None
        case Some(r) => Some(([s[1]] + r.0, r.1))
    else match ReadLiteral(s[1..])
      case None => None
      case Some(r) => Some(([s[0]] + r.0, r.1))
  }

  /** Reading one escaped character ahead of a literal's remainder. */
  lemma ReadEscapedChar(c: char, tail: string, y: string, rest: string)
    requires ReadLiteral(tail) == Some((y, rest))
    ensures ReadLiteral(EscapeChar(c) + tail) == Some(([c] + y, rest))
  {
    if c == '\\' || c == '\'' {
      assert (EscapeChar(c) + tail)[2..] == tail;
    } else {
      assert (EscapeChar(c) + tail)[1..] == tail;
    }
  }

  /** An escaped value placed inside quotes is read back exactly, and the
      literal ends at the intended quote: no id or search text can end the
      literal early and inject query syntax. */
  lemma {:induction false} ReadEscaped(x: string, rest: string)
    ensures ReadLiteral(EscapeQ(x) + "'" + rest) == Some((x, rest))
    decreases |x|
  {
    if x == [] {
      assert EscapeQ(x) + "'" + rest == "'" + rest;
    } else {
      ReadEscaped(x[1..], rest);
      ReadEscapedStep(x, rest);
    }
  }

  lemma ReadEscapedStep(x: string, rest: string)
    requires x != []
    requires ReadLiteral(EscapeQ(x[1..]) + "'" + rest) == Some((x[1..], rest))
    ensures ReadLiteral(EscapeQ(x) + "'" + rest) == Some((x, rest))
  {
    EscapeQCons(x);
    var tail := EscapeQ(x[1..]) + "'" + rest;
    ReadEscapedChar(x[0], tail, x[1..], rest);
    assert EscapeQ(x) + "'" + rest == EscapeChar(x[0]) + tail;
    assert x == [x[0]] + x[1..];
  }

  /** Escaping is injective, so distinct folders give distinct queries. */
  lemma EscapeQInjective(a: string, b: string)
    requires EscapeQ(a) == EscapeQ(b)
    ensures a == b
  {
    ReadEscaped(a, "");
    ReadEscaped(b, "");
  }

  const ParentsTail: string := " in parents and trashed = false"
  const NameClause: string := " and name contains '"

  /** `'${escapeQ(folder)}' in parents and trashed = false`. */
  function ParentsQuery(folder: string): string {
    "'" + EscapeQ(folder) + "'" + ParentsTail
  }

  /** The clause `media.ts` appends when a search text is given. */
  function NameFilter(text: string): string {
    NameClause + EscapeQ(text) + "'"
  }

  /** Reads back the folder a parents query lists, and what follows the
      parents clause. */
  function ParseParentsQuery(q: string): Option<(string, string)> {
    if |q| == 0 || q[0] != '\'' then None
    else match ReadLiteral(q[1..])
      case None => None
      case Some(r) =>
        if ParentsTail <= r.1 then Some((r.0, r.1[|ParentsTail|..])) else None
  }

  /** Reads back the text of a name clause. */
  function ParseNameFilter(s: string): Option<string> {
    if NameClause <= s then
      match ReadLiteral(s[|NameClause|..])
      case Some(r) => if r.1 == [] then Some(r.0) else None
      case None => None
    else None
  }

  /** The listing query names exactly the folder it was built for, whatever
      characters the folder id holds. */
  lemma ParentsQueryRoundTrip(folder: string, suffix: string)
    ensures ParseParentsQuery(ParentsQuery(folder) + suffix) == Some((folder, suffix))
  {
    var q := ParentsQuery(folder) + suffix;
    ReadEscaped(folder, ParentsTail + suffix);
    assert q[1..] == EscapeQ(folder) + "'" + (ParentsTail + suffix);
    assert (ParentsTail + suffix)[|ParentsTail|..] == suffix;
  }

  lemma NameFilterRoundTrip(text: string)
    ensures ParseNameFilter(NameFilter(text)) == Some(text)
  {
    ReadEscaped(text, "");
    assert NameFilter(text)[|NameClause|..] == EscapeQ(text) + "'" + "";
  }
}
