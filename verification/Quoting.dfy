/** internal/snowflake/statement/render.go: SQL quoting, and the lexers that read
    the rendered text back. */
module Quoting {
  import opened Common
  import opened Text

  // ---- render.go -----------------------------------------------------------

  function QuoteIdentifier(name: string): string {
    "\"" + ReplaceChar(name, '\"', "\"\"") + "\""
  }

  function QuoteLiteral(s: string): string {
    var escaped := ReplaceChar(s, '\\', "\\\\");
    "'" + ReplaceChar(escaped, '\'', "''") + "'"
  }

  predicate IsWordChar(c: char) { IsAlnum(c) || c == '_' }

  function BareIdentifier(name: string): Result<string> {
    if name != "" && IsLetter(name[0]) && forall i :: 0 <= i < |name| ==> IsWordChar(name[i])
    then Ok(name)
    else Err(UserError)
  }

  // ---- one escape per character ---------------------------------------------

  /** What QuoteLiteral promises for one character: quotes and backslashes doubled. */
  function EscapeChar(c: char): string {
    if c == '\'' || c == '\\' then [c, c] else [c]
  }

  function EscapeLiteral(s: string): string {
    if s == "" then "" else EscapeChar(s[0]) + EscapeLiteral(s[1..])
  }

  /** The two replacement passes do not interfere: the second never touches what
      the first inserted, so together they are one escape per character. */
  lemma {:induction false} TwoPassesAreOneEscape(s: string)
    ensures QuoteLiteral(s) == "'" + EscapeLiteral(s) + "'"
  {
    TwoPassBody(s);
  }

  lemma {:induction false} TwoPassBody(s: string)
    ensures ReplaceChar(ReplaceChar(s, '\\', "\\\\"), '\'', "''") == EscapeLiteral(s)
  {
    if s != "" {
      TwoPassBody(s[1..]);
      var head := if s[0] == '\\' then "\\\\" else [s[0]];
      ReplaceCharConcat(head, ReplaceChar(s[1..], '\\', "\\\\"), '\'', "''");
      if s[0] == '\\' {
        assert head == ['\\'] + ['\\'];
        ReplaceCharCons('\\', ['\\'], '\'', "''");
        ReplaceCharCons('\\', "", '\'', "''");
      } else {
        ReplaceCharCons(s[0], "", '\'', "''");
        assert [s[0]] + "" == [s[0]];
      }
    }
  }

  // ---- Snowflake's lexer ------------------------------------------------------

  datatype Lexed = Lexed(value: string, rest: string)

  function Prepend(c: char, l: Option<Lexed>): Option<Lexed> {
    match l
    case None => None
    case Some(v) => Some(Lexed([c] + v.value, v.rest))
  }

  function PrependAll(s: string, l: Option<Lexed>): Option<Lexed> {
    match l
    case None => None
    case Some(v) => Some(Lexed(s + v.value, v.rest))
  }

  /** Reads the text after an opening quote `q`. A doubled quote stands for one
      quote. If `escapes`, a backslash and the next character stand for
      `unescape` of that character (a newline for `n`, and so on). */
  function LexQuoted(t: string, q: char, escapes: bool, unescape: char -> char): Option<Lexed> {
    if t == "" then None
    else if escapes && t[0] == '\\' then
      if |t| < 2 then None
      else Prepend(unescape(t[1]), LexQuoted(t[2..], q, escapes, unescape))
    else if t[0] == q then
      if |t| >= 2 && t[1] == q then Prepend(q, LexQuoted(t[2..], q, escapes, unescape))
      else Some(Lexed("", t[1..]))
    else Prepend(t[0], LexQuoted(t[1..], q, escapes, unescape))
  }

  const NO_ESCAPES: char -> char := c => c

  function LexLiteral(t: string, unescape: char -> char): Option<Lexed> {
    if t != "" && t[0] == '\'' then LexQuoted(t[1..], '\'', true, unescape) else None
  }

  function LexIdentifier(t: string): Option<Lexed> {
    if t != "" && t[0] == '\"' then LexQuoted(t[1..], '\"', false, NO_ESCAPES) else None
  }

  predicate StartsWith(t: string, c: char) { t != "" && t[0] == c }

  lemma {:induction false} LexShortens(t: string, q: char, escapes: bool, unescape: char -> char)
    ensures var r := LexQuoted(t, q, escapes, unescape); r.Some? ==> |r.value.rest| < |t|
    decreases |t|
  {
    if t == "" {
    } else if escapes && t[0] == '\\' {
      if |t| >= 2 { LexShortens(t[2..], q, escapes, unescape); }
    } else if t[0] == q {
      if |t| >= 2 && t[1] == q { LexShortens(t[2..], q, escapes, unescape); }
    } else {
      LexShortens(t[1..], q, escapes, unescape);
    }
  }

  /** Reading one escaped character and then the text `t` gives the character back. */
  lemma {:induction false} LexEscaped(c: char, t: string, unescape: char -> char)
    requires unescape('\\') == '\\'
    ensures LexQuoted(EscapeChar(c) + t, '\'', true, unescape)
         == Prepend(c, LexQuoted(t, '\'', true, unescape))
  {
    var u := EscapeChar(c) + t;
    if c == '\'' || c == '\\' {
      assert u[2..] == t;
    } else {
      assert u[1..] == t;
    }
  }

  lemma PrependThenAll(c: char, s: string, l: Option<Lexed>)
    ensures Prepend(c, PrependAll(s, l)) == PrependAll([c] + s, l)
    ensures PrependAll("", l) == l
  {
    if l.Some? {
      assert [c] + (s + l.value.value) == [c] + s + l.value.value;
      assert "" + l.value.value == l.value.value;
    }
  }

  /** An escaped text in front of `t` contributes itself and nothing else. */
  lemma {:induction false} LexLiteralBody(s: string, t: string, unescape: char -> char)
    requires unescape('\\') == '\\'
    ensures LexQuoted(EscapeLiteral(s) + t, '\'', true, unescape) == PrependAll(s, LexQuoted(t, '\'', true, unescape))
  {
    var l := LexQuoted(t, '\'', true, unescape);
    if s == "" {
      assert EscapeLiteral(s) + t == t;
      PrependThenAll('x', "", l);
    } else {
      var after := EscapeLiteral(s[1..]) + t;
      assert EscapeLiteral(s) + t == EscapeChar(s[0]) + after;
      LexEscaped(s[0], after, unescape);
      LexLiteralBody(s[1..], t, unescape);
      PrependThenAll(s[0], s[1..], l);
      assert [s[0]] + s[1..] == s;
    }
  }

  /** The literal is read back whole, and nothing after it is consumed, exactly
      when the text that follows does not start with a quote. Whatever the other
      backslash escapes mean (`unescape` is arbitrary apart from the backslash
      itself), they are never triggered by the value. */
  lemma {:induction false} LiteralReadsBack(s: string, rest: string, unescape: char -> char)
    requires unescape('\\') == '\\'
    ensures LexLiteral(QuoteLiteral(s) + rest, unescape) == Some(Lexed(s, rest))
       <==> !StartsWith(rest, '\'')
  {
    TwoPassesAreOneEscape(s);
    var body := EscapeLiteral(s) + "'" + rest;
    assert (QuoteLiteral(s) + rest)[1..] == body;
    var close := "'" + rest;
    assert body == EscapeLiteral(s) + close;
    LexLiteralBody(s, close, unescape);
    assert close[1..] == rest;
    if StartsWith(rest, '\'') {
      assert close[2..] == rest[1..];
      LexShortens(rest[1..], '\'', true, unescape);
    } else {
      assert s + "" == s;
    }
  }

  lemma {:induction false} LexDoubled(c: char, t: string)
    ensures LexQuoted((if c == '\"' then "\"\"" else [c]) + t, '\"', false, NO_ESCAPES)
         == Prepend(c, LexQuoted(t, '\"', false, NO_ESCAPES))
  {
    var u := (if c == '\"' then "\"\"" else [c]) + t;
    if c == '\"' {
      assert u[2..] == t;
    } else {
      assert u[1..] == t;
    }
  }

  lemma {:induction false} LexIdentifierBody(s: string, t: string)
    ensures LexQuoted(ReplaceChar(s, '\"', "\"\"") + t, '\"', false, NO_ESCAPES)
         == PrependAll(s, LexQuoted(t, '\"', false, NO_ESCAPES))
  {
    var l := LexQuoted(t, '\"', false, NO_ESCAPES);
    if s == "" {
      assert ReplaceChar(s, '\"', "\"\"") + t == t;
      PrependThenAll('x', "", l);
    } else {
      var after := ReplaceChar(s[1..], '\"', "\"\"") + t;
      var head := if s[0] == '\"' then "\"\"" else [s[0]];
      assert ReplaceChar(s, '\"', "\"\"") + t == head + after;
      LexDoubled(s[0], after);
      LexIdentifierBody(s[1..], t);
      PrependThenAll(s[0], s[1..], l);
      assert [s[0]] + s[1..] == s;
    }
  }

  lemma {:induction false} IdentifierReadsBack(name: string, rest: string)
    ensures LexIdentifier(QuoteIdentifier(name) + rest) == Some(Lexed(name, rest))
       <==> !StartsWith(rest, '\"')
  {
    var body := ReplaceChar(name, '\"', "\"\"") + "\"" + rest;
    assert (QuoteIdentifier(name) + rest)[1..] == body;
    var close := "\"" + rest;
    assert body == ReplaceChar(name, '\"', "\"\"") + close;
    LexIdentifierBody(name, close);
    assert close[1..] == rest;
    if StartsWith(rest, '\"') {
      assert close[2..] == rest[1..];
      LexShortens(rest[1..], '\"', false, NO_ESCAPES);
    } else {
      assert name + "" == name;
    }
  }

  // ---- strict decoders: the image of the quoters is exactly what they accept ---

  /** The decoder of a quoted value that accepts nothing but doubled specials. */
  function DecodeDoubled(inner: string, special: set<char>): Option<string> {
    if inner == "" then Some("")
    else if inner[0] in special then
      if |inner| >= 2 && inner[1] == inner[0] then
        var r := DecodeDoubled(inner[2..], special);
        if r.None? then None else Some([inner[0]] + r.value)
      else None
    else
      var r := DecodeDoubled(inner[1..], special);
      if r.None? then None else Some([inner[0]] + r.value)
  }

  function Unquote(t: string, q: char, special: set<char>): Option<string> {
    if |t| < 2 || t[0] != q || t[|t| - 1] != q then None
    else DecodeDoubled(t[1..|t| - 1], special)
  }

  const LITERAL_SPECIALS: set<char> := {'\'', '\\'}
  const IDENTIFIER_SPECIALS: set<char> := {'\"'}

  lemma {:induction false} DecodeEscaped(s: string)
    ensures DecodeDoubled(EscapeLiteral(s), LITERAL_SPECIALS) == Some(s)
  {
    if s != "" {
      DecodeEscaped(s[1..]);
      assert s == [s[0]] + s[1..];
      var e := EscapeLiteral(s);
      if s[0] in LITERAL_SPECIALS {
        assert e[2..] == EscapeLiteral(s[1..]);
      } else {
        assert e[1..] == EscapeLiteral(s[1..]);
      }
    }
  }

  lemma {:induction false} DecodedWasEscaped(t: string, s: string)
    requires DecodeDoubled(t, LITERAL_SPECIALS) == Some(s)
    ensures t == EscapeLiteral(s)
    decreases |t|
  {
    if t != "" {
      if t[0] in LITERAL_SPECIALS {
        DecodedWasEscaped(t[2..], s[1..]);
        assert t == [t[0], t[1]] + t[2..];
      } else {
        DecodedWasEscaped(t[1..], s[1..]);
        assert t == [t[0]] + t[1..];
      }
    }
  }

  /** Quoting is a bijection onto the strictly quoted texts: the decoder accepts a
      text with value `s` exactly when the text is the quoting of `s`. */
  lemma {:induction false} LiteralDecodesExactly(t: string, s: string)
    ensures Unquote(t, '\'', LITERAL_SPECIALS) == Some(s) <==> t == QuoteLiteral(s)
  {
    TwoPassesAreOneEscape(s);
    if t == QuoteLiteral(s) {
      assert t[1..|t| - 1] == EscapeLiteral(s);
      DecodeEscaped(s);
    }
    if Unquote(t, '\'', LITERAL_SPECIALS) == Some(s) {
      DecodedWasEscaped(t[1..|t| - 1], s);
      assert t == "'" + t[1..|t| - 1] + "'";
    }
  }

  lemma {:induction false} DecodeDoubledQuotes(s: string)
    ensures DecodeDoubled(ReplaceChar(s, '\"', "\"\""), IDENTIFIER_SPECIALS) == Some(s)
  {
    if s != "" {
      DecodeDoubledQuotes(s[1..]);
      assert s == [s[0]] + s[1..];
      var e := ReplaceChar(s, '\"', "\"\"");
      if s[0] == '\"' {
        assert e[2..] == ReplaceChar(s[1..], '\"', "\"\"");
      } else {
        assert e[1..] == ReplaceChar(s[1..], '\"', "\"\"");
      }
    }
  }

  lemma {:induction false} DecodedHadDoubledQuotes(t: string, s: string)
    requires DecodeDoubled(t, IDENTIFIER_SPECIALS) == Some(s)
    ensures t == ReplaceChar(s, '\"', "\"\"")
    decreases |t|
  {
    if t != "" {
      if t[0] == '\"' {
        DecodedHadDoubledQuotes(t[2..], s[1..]);
        assert t == [t[0], t[1]] + t[2..];
      } else {
        DecodedHadDoubledQuotes(t[1..], s[1..]);
        assert t == [t[0]] + t[1..];
      }
    }
  }

  lemma {:induction false} IdentifierDecodesExactly(t: string, s: string)
    ensures Unquote(t, '\"', IDENTIFIER_SPECIALS) == Some(s) <==> t == QuoteIdentifier(s)
  {
    if t == QuoteIdentifier(s) {
      assert t[1..|t| - 1] == ReplaceChar(s, '\"', "\"\"");
      DecodeDoubledQuotes(s);
    }
    if Unquote(t, '\"', IDENTIFIER_SPECIALS) == Some(s) {
      DecodedHadDoubledQuotes(t[1..|t| - 1], s);
      assert t == "\"" + t[1..|t| - 1] + "\"";
    }
  }

  // ---- bare tokens and the rotation statement ------------------------------------

  /** The longest run of word characters at the start of `t`. */
  function WordPrefix(t: string): string {
    if t == "" || !IsWordChar(t[0]) then "" else [t[0]] + WordPrefix(t[1..])
  }

  lemma {:induction false} WordPrefixIsPrefix(t: string)
    ensures WordPrefix(t) <= t
    ensures forall i :: 0 <= i < |WordPrefix(t)| ==> IsWordChar(WordPrefix(t)[i])
  {
    if t != "" && IsWordChar(t[0]) {
      WordPrefixIsPrefix(t[1..]);
      assert t == [t[0]] + t[1..];
    }
  }

  /** An unquoted token: a word starting with a letter. */
  function LexBare(t: string): Option<Lexed> {
    var w := WordPrefix(t);
    WordPrefixIsPrefix(t);
    if w != "" && IsLetter(w[0]) then Some(Lexed(w, t[|w|..])) else None
  }

  lemma {:induction false} WordThenRest(w: string, rest: string)
    requires forall i :: 0 <= i < |w| ==> IsWordChar(w[i])
    requires rest == "" || !IsWordChar(rest[0])
    ensures WordPrefix(w + rest) == w
  {
    if w == "" {
      assert w + rest == rest;
    } else {
      assert (w + rest)[1..] == w[1..] + rest;
      WordThenRest(w[1..], rest);
    }
  }

  /** A name is accepted as bare exactly when the lexer reads it back as one token. */
  lemma {:induction false} BareReadsBack(name: string, rest: string)
    requires rest == "" || !IsWordChar(rest[0])
    ensures BareIdentifier(name).Ok? <==> LexBare(name + rest) == Some(Lexed(name, rest))
    ensures BareIdentifier(name).Ok? ==> BareIdentifier(name).value == name
    ensures BareIdentifier(name).Ok? <==>
      name != "" && !('0' <= name[0] <= '9') && name[0] != '_' && forall i :: 0 <= i < |name| ==>
        'A' <= name[i] <= 'Z' || 'a' <= name[i] <= 'z' || '0' <= name[i] <= '9' || name[i] == '_'
  {
    WordPrefixIsPrefix(name + rest);
    if BareIdentifier(name).Ok? {
      WordThenRest(name, rest);
      assert (name + rest)[|name|..] == rest;
    }
    if LexBare(name + rest) == Some(Lexed(name, rest)) {
      assert WordPrefix(name + rest) == name;
    }
  }

  /** rotate.go: the username is upper-cased, then quoted. */
  function RotationStatement(username: string, slot: string, publicKey: string): string {
    "ALTER USER " + QuoteIdentifier(ToUpper(username)) + " SET " + slot + " = '" + publicKey + "'"
  }

  datatype Alter = Alter(user: string, property: string, value: string)

  /** Drops the keyword `k` from the front of `t`. */
  function Expect(k: string, t: string): Option<string> {
    if k <= t then Some(t[|k|..]) else None
  }

  function ParseValue(user: string, property: string, t: string, unescape: char -> char): Option<Alter> {
    var afterEquals := Expect(" = ", t);
    if afterEquals.None? then None else
    var value := LexLiteral(afterEquals.value, unescape);
    if value.None? || value.value.rest != "" then None
    else Some(Alter(user, property, value.value.value))
  }

  function ParseProperty(user: string, t: string, unescape: char -> char): Option<Alter> {
    var afterSet := Expect(" SET ", t);
    if afterSet.None? then None else
    var property := LexBare(afterSet.value);
    if property.None? then None
    else ParseValue(user, property.value.value, property.value.rest, unescape)
  }

  /** Reads `ALTER USER "..." SET word = '...'` and nothing after it. */
  function ParseAlter(t: string, unescape: char -> char): Option<Alter> {
    var afterAlter := Expect("ALTER USER ", t);
    if afterAlter.None? then None else
    var user := LexIdentifier(afterAlter.value);
    if user.None? then None
    else ParseProperty(user.value.value, user.value.rest, unescape)
  }

  lemma ExpectDrops(k: string, t: string)
    ensures Expect(k, k + t) == Some(t)
  {
    assert (k + t)[|k|..] == t;
  }

  predicate NeedsNoEscape(s: string) {
    forall i :: 0 <= i < |s| ==> s[i] != '\'' && s[i] != '\\'
  }

  lemma {:induction false} PlainTextEscapesToItself(s: string)
    requires NeedsNoEscape(s)
    ensures EscapeLiteral(s) == s
  {
    if s != "" {
      PlainTextEscapesToItself(s[1..]);
    }
  }

  lemma {:induction false} ValueReadsBack(user: string, property: string, key: string, unescape: char -> char)
    requires unescape('\\') == '\\'
    requires NeedsNoEscape(key)
    ensures ParseValue(user, property, " = '" + key + "'", unescape) == Some(Alter(user, property, key))
  {
    var value := "'" + key + "'";
    assert " = '" + key + "'" == " = " + value;
    ExpectDrops(" = ", value);
    PlainTextEscapesToItself(key);
    TwoPassesAreOneEscape(key);
    assert value == QuoteLiteral(key) + "";
    LiteralReadsBack(key, "", unescape);
  }

  lemma {:induction false} PropertyReadsBack(user: string, slot: string, after: string, unescape: char -> char)
    requires BareIdentifier(slot).Ok?
    requires StartsWith(after, ' ')
    ensures ParseProperty(user, " SET " + slot + after, unescape) == ParseValue(user, slot, after, unescape)
  {
    assert " SET " + slot + after == " SET " + (slot + after);
    ExpectDrops(" SET ", slot + after);
    BareReadsBack(slot, after);
  }

  lemma {:induction false} UserReadsBack(user: string, after: string, unescape: char -> char)
    requires StartsWith(after, ' ')
    ensures ParseAlter("ALTER USER " + QuoteIdentifier(user) + after, unescape)
         == ParseProperty(user, after, unescape)
  {
    assert "ALTER USER " + QuoteIdentifier(user) + after == "ALTER USER " + (QuoteIdentifier(user) + after);
    ExpectDrops("ALTER USER ", QuoteIdentifier(user) + after);
    IdentifierReadsBack(user, after);
  }

  /** The statement rotation renders by hand reads back as the slot and the key it was
      built from and the username in upper case, for any username at all: only the key
      must be plain, as base64 is. */
  lemma {:induction false} RotationStatementReadsBack(username: string, slot: string, publicKey: string,
        unescape: char -> char)
    requires unescape('\\') == '\\'
    requires BareIdentifier(slot).Ok?
    requires NeedsNoEscape(publicKey)
    ensures var read := ParseAlter(RotationStatement(username, slot, publicKey), unescape);
      && read.Some? && UpperCased(username, read.value.user)
      && read.value.property == slot && read.value.value == publicKey
  {
    var name := ToUpper(username);
    ToUpperExactly(username, name);
    var value := " = '" + publicKey + "'";
    var property := " SET " + slot + value;
    assert RotationStatement(username, slot, publicKey) == "ALTER USER " + QuoteIdentifier(name) + property by {
      assert value == " = '" + (publicKey + "'");
    }
    UserReadsBack(name, property, unescape);
    PropertyReadsBack(name, slot, value, unescape);
    ValueReadsBack(name, slot, publicKey, unescape);
  }
}
