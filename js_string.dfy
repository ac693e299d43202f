/** The few JavaScript string operations the core relies on, with the
    semantics of the ECMAScript built-ins for the arguments the core passes. */
module JsString {

  /** `s.substr(start, length)` for non-negative arguments: the part of `s`
      from `start` of at most `length` characters, clamped to the string. */
  function Substr(s: string, start: nat, length: nat): (r: string)
    ensures |r| == if start >= |s| then 0 else if start + length <= |s| then length else |s| - start
    ensures forall i :: 0 <= i < |r| ==> r[i] == s[start + i]
  {
    if start >= |s| then "" else if start + length <= |s| then s[start..start + length] else s[start..]
  }

  /** `s.startsWith(prefix)`. */
  predicate StartsWith(s: string, prefix: string) {
    |prefix| <= |s| && s[..|prefix|] == prefix
  }

  /** True when an occurrence of `token` begins at index `i` of `s`. */
  predicate OccursAt(s: string, token: string, i: nat)
    requires i <= |s|
  {
    token <= s[i..]
  }

  /** `s.replace(/token/g, rep)` for a token without regular-expression
      metacharacters and a replacement without `$` patterns: every
      occurrence, scanned left to right without overlap, is replaced. */
  function ReplaceAll(s: string, token: string, rep: string): string
    requires token != ""
    decreases |s|
  {
    if s == [] then []
    else if token <= s then rep + ReplaceAll(s[|token|..], token, rep)
    else [s[0]] + ReplaceAll(s[1..], token, rep)
  }

  /** A string in which the token does not occur is left as it is. */
  lemma {:induction false} ReplaceAllAbsent(s: string, token: string, rep: string)
    requires token != ""
    requires forall i :: 0 <= i <= |s| ==> !OccursAt(s, token, i)
    ensures ReplaceAll(s, token, rep) == s
    decreases |s|
  {
    if s != [] {
      assert !OccursAt(s, token, 0);
      assert s[0..] == s;
      forall i | 0 <= i <= |s[1..]| ensures !OccursAt(s[1..], token, i) {
        assert s[1..][i..] == s[i + 1..];
        assert !OccursAt(s, token, i + 1);
      }
      ReplaceAllAbsent(s[1..], token, rep);
      assert s == [s[0]] + s[1..];
    }
  }

  /** A string shorter than the token is left as it is. */
  lemma ReplaceAllShort(s: string, token: string, rep: string)
    requires token != "" && |s| < |token|
    ensures ReplaceAll(s, token, rep) == s
  {
    forall i | 0 <= i <= |s| ensures !OccursAt(s, token, i) { }
    ReplaceAllAbsent(s, token, rep);
  }

  /** A leading occurrence of the token is replaced and scanning resumes after it. */
  lemma ReplaceAllLeading(token: string, rest: string, rep: string)
    requires token != ""
    ensures ReplaceAll(token + rest, token, rep) == rep + ReplaceAll(rest, token, rep)
  {
    var s := token + rest;
    assert token <= s;
    assert s[|token|..] == rest;
  }

  /** When no occurrence of the token begins inside `a`, replacing in `a + b`
      copies `a` and replaces in `b`. */
  lemma {:induction false} ReplaceAllCopiesPrefix(a: string, b: string, token: string, rep: string)
    requires token != ""
    requires forall i :: 0 <= i < |a| ==> !OccursAt(a + b, token, i)
    ensures ReplaceAll(a + b, token, rep) == a + ReplaceAll(b, token, rep)
    decreases |a|
  {
    if a != [] {
      var s := a + b;
      assert !OccursAt(s, token, 0);
      assert s[0..] == s;
      assert s[1..] == a[1..] + b;
      forall i | 0 <= i < |a[1..]| ensures !OccursAt(a[1..] + b, token, i) {
        assert (a[1..] + b)[i..] == s[i + 1..];
        assert !OccursAt(s, token, i + 1);
      }
      ReplaceAllCopiesPrefix(a[1..], b, token, rep);
      assert a == [a[0]] + a[1..];
    }
  }

  /** `s.split(sep)`: the pieces between the separators, at least one. */
  function Split(s: string, sep: char): (parts: seq<string>)
    ensures |parts| >= 1
    ensures sep !in s ==> parts == [s]
    decreases |s|
  {
    if s == [] then [""]
    else
      var rest := Split(s[1..], sep);
      if s[0] == sep then [""] + rest
      else
        assert s == [s[0]] + s[1..];
        [[s[0]] + rest[0]] + rest[1..]
  }

  /** Splitting at the first separator: the piece before it comes first. */
  lemma {:induction false} SplitAtFirst(a: string, sep: char, b: string)
    requires sep !in a
    ensures Split(a + [sep] + b, sep) == [a] + Split(b, sep)
    decreases |a|
  {
    var s := a + [sep] + b;
    if a == [] {
      assert s[1..] == b;
    } else {
      assert s[1..] == a[1..] + [sep] + b;
      SplitAtFirst(a[1..], sep, b);
      assert [a[0]] + a[1..] == a;
    }
  }

  /** A brace token such as `{month}`: `{`, then characters that are
      neither brace, then `}`. */
  predicate IsToken(t: string) {
    && |t| >= 2 && t[0] == '{' && t[|t| - 1] == '}'
    && forall i :: 0 < i < |t| - 1 ==> t[i] != '{' && t[i] != '}'
  }

  /** A piece of a title pattern: literal text, or a token. */
  datatype Piece = Text(text: string) | Slot(token: string)

  /** A pattern built from literal text without `{` and from brace tokens. */
  predicate IsTemplate(pieces: seq<Piece>) {
    forall i :: 0 <= i < |pieces| ==>
      match pieces[i]
      case Text(t) => '{' !in t
      case Slot(t) => IsToken(t)
  }

  /** The pattern string the pieces spell. */
  function Join(pieces: seq<Piece>): string
    decreases |pieces|
  {
    if pieces == [] then ""
    else (match pieces[0] case Text(t) => t case Slot(t) => t) + Join(pieces[1..])
  }

  /** Every slot of `token` filled with the text `rep`; other pieces kept. */
  function Fill(pieces: seq<Piece>, token: string, rep: string): (r: seq<Piece>)
    ensures |r| == |pieces|
    ensures forall i :: 0 <= i < |pieces| ==> r[i] == if pieces[i] == Slot(token) then Text(rep) else pieces[i]
    decreases |pieces|
  {
    if pieces == [] then []
    else [if pieces[0] == Slot(token) then Text(rep) else pieces[0]] + Fill(pieces[1..], token, rep)
  }

  /** Two different brace tokens: neither begins where the other is written. */
  lemma TokenNotPrefix(name: string, token: string, rest: string)
    requires IsToken(name) && IsToken(token) && name != token
    ensures !(token <= name + rest)
  {
    var s := name + rest;
    if |token| == |name| {
      assert s[..|name|] == name;
    } else if |token| < |name| {
      assert s[|token| - 1] == name[|token| - 1] != '}';
    } else if |token| <= |s| {
      assert s[|name| - 1] == '}' != token[|name| - 1];
    }
  }

  /** Nothing that begins inside `t`, a text without `{`, is an occurrence. */
  lemma NoOccurrenceInText(t: string, rest: string, token: string)
    requires '{' !in t && IsToken(token)
    ensures forall i :: 0 <= i < |t| ==> !OccursAt(t + rest, token, i)
  {
    forall i | 0 <= i < |t| ensures !OccursAt(t + rest, token, i) {
      assert (t + rest)[i..][0] == t[i];
    }
  }

  /** Nothing that begins inside another token `name` is an occurrence of `token`. */
  lemma NoOccurrenceInOtherToken(name: string, rest: string, token: string)
    requires IsToken(name) && IsToken(token) && name != token
    ensures forall i :: 0 <= i < |name| ==> !OccursAt(name + rest, token, i)
  {
    forall i | 0 <= i < |name| ensures !OccursAt(name + rest, token, i) {
      if i == 0 {
        assert (name + rest)[0..] == name + rest;
        TokenNotPrefix(name, token, rest);
      } else {
        assert (name + rest)[i..][0] == name[i] != '{';
      }
    }
  }

  /** Replacing a brace token in a template fills exactly its slots: every
      occurrence of the token is replaced, and the text and the other
      tokens are kept. */
  lemma {:induction false} ReplaceAllFills(pieces: seq<Piece>, token: string, rep: string)
    requires IsTemplate(pieces) && IsToken(token)
    ensures ReplaceAll(Join(pieces), token, rep) == Join(Fill(pieces, token, rep))
    decreases |pieces|
  {
    if pieces != [] {
      var rest := Join(pieces[1..]);
      assert IsTemplate(pieces[1..]) by {
        forall i | 0 <= i < |pieces[1..]| ensures pieces[1..][i] == pieces[i + 1] { }
      }
      ReplaceAllFills(pieces[1..], token, rep);
      assert Fill(pieces, token, rep)[1..] == Fill(pieces[1..], token, rep);
      match pieces[0]
      case Text(t) =>
        assert '{' !in t by { assert pieces[0] == Text(t); }
        NoOccurrenceInText(t, rest, token);
        ReplaceAllCopiesPrefix(t, rest, token, rep);
      case Slot(name) =>
        assert IsToken(name) by { assert pieces[0] == Slot(name); }
        if name == token {
          ReplaceAllLeading(token, rest, rep);
        } else {
          NoOccurrenceInOtherToken(name, rest, token);
          ReplaceAllCopiesPrefix(name, rest, token, rep);
        }
    }
  }

  /** Filling keeps a template a template when the replacement has no `{`. */
  lemma FillKeepsTemplate(pieces: seq<Piece>, token: string, rep: string)
    requires IsTemplate(pieces) && '{' !in rep
    ensures IsTemplate(Fill(pieces, token, rep))
  {
  }
}
