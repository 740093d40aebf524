/** Printing and parsing JSON Pointers, sections 3 and 4 of RFC 6901. */
module Pointers {

  /** Every non-overlapping occurrence of pat, left to right, becomes put. */
  function Replace(s: string, pat: string, put: string): string
    requires |pat| > 0
  {
    if |s| < |pat| then s
    else if s[..|pat|] == pat then put + Replace(s[|pat|..], pat, put)
    else [s[0]] + Replace(s[1..], pat, put)
  }

  function Split(s: string): (r: seq<string>)
    ensures |r| > 0
  {
    if s == "" then [""]
    else if s[0] == '/' then [""] + Split(s[1..])
    else
      var r := Split(s[1..]);
      [[s[0]] + r[0]] + r[1..]
  }

  function Escape(token: string): string
  {
    Replace(Replace(token, "~", "~0"), "/", "~1")
  }

  function Unescape(token: string): string
  {
    Replace(Replace(token, "~1", "/"), "~0", "~")
  }

  function Print(tokens: seq<string>): string
  {
    if tokens == [] then "" else "/" + Escape(tokens[0]) + Print(tokens[1..])
  }

  function UnescapeAll(pieces: seq<string>): (r: seq<string>)
    ensures |r| == |pieces|
  {
    if pieces == [] then [] else [Unescape(pieces[0])] + UnescapeAll(pieces[1..])
  }

  /** The tokens of a pointer: what follows each slash. */
  function Parse(pointer: string): seq<string>
  {
    UnescapeAll(Split(pointer)[1..])
  }

  // ----- One token -----

  function EncodeChar(c: char): string
  {
    if c == '~' then "~0" else if c == '/' then "~1" else [c]
  }

  /** Escaping, one character at a time. */
  function Encode(t: string): string
  {
    if t == "" then "" else EncodeChar(t[0]) + Encode(t[1..])
  }

  lemma OneTilde(t: string)
    requires t != ""
    ensures Replace(t, "~", "~0") == (if t[0] == '~' then "~0" else [t[0]]) + Replace(t[1..], "~", "~0")
  {
    assert t[..1][0] == t[0] && "~"[0] == '~';
    if t[0] == '~' { assert t[..1] == "~"; }
  }

  lemma OneSlash(c: char, rest: string)
    ensures Replace([c] + rest, "/", "~1") == (if c == '/' then "~1" else [c]) + Replace(rest, "/", "~1")
  {
    var s := [c] + rest;
    assert s[1..] == rest && s[..1][0] == c && "/"[0] == '/';
    if c == '/' { assert s[..1] == "/"; }
  }

  lemma EscapeTilde(rest: string)
    ensures Replace("~0" + rest, "/", "~1") == "~0" + Replace(rest, "/", "~1")
  {
    OneSlash('0', rest);
    OneSlash('~', "0" + rest);
    assert "~0" + rest == ['~'] + ("0" + rest);
    assert "~0" + Replace(rest, "/", "~1") == ['~'] + ("0" + Replace(rest, "/", "~1"));
  }

  /** Escaping a text escapes its first character, then the rest. */
  lemma EscapeFirst(t: string)
    requires t != ""
    ensures Escape(t) == EncodeChar(t[0]) + Escape(t[1..])
  {
    var rest := Replace(t[1..], "~", "~0");
    OneTilde(t);
    if t[0] == '~' { EscapeTilde(rest); } else { OneSlash(t[0], rest); }
  }

  lemma {:induction false} EscapeIsEncode(t: string)
    ensures Escape(t) == Encode(t)
  {
    if t != "" {
      EscapeFirst(t);
      EscapeIsEncode(t[1..]);
    }
  }

  lemma StepOver(c: char, rest: string)
    requires c != '~'
    ensures Replace([c] + rest, "~1", "/") == [c] + Replace(rest, "~1", "/")
    ensures Replace([c] + rest, "~0", "~") == [c] + Replace(rest, "~0", "~")
  {
    var s := [c] + rest;
    assert s[1..] == rest;
    if |s| >= 2 { assert s[..2][0] == c; }
  }

  lemma FirstUnescapeTilde(rest: string)
    ensures Replace("~0" + rest, "~1", "/") == "~0" + Replace(rest, "~1", "/")
  {
    var s := "~0" + rest;
    assert s[..2][1] == '0' && "~1"[1] == '1' && s[1..] == "0" + rest;
    StepOver('0', rest);
    assert "~0" + Replace(rest, "~1", "/") == ['~'] + ("0" + Replace(rest, "~1", "/"));
  }

  lemma FirstUnescapeSlash(rest: string)
    ensures Replace("~1" + rest, "~1", "/") == "/" + Replace(rest, "~1", "/")
  {
    var s := "~1" + rest;
    assert s[..2] == "~1" && s[2..] == rest;
  }

  /** Undoing ~1 first leaves only the tilde escape. */
  lemma {:induction false} FirstUnescape(t: string)
    ensures Replace(Encode(t), "~1", "/") == Replace(t, "~", "~0")
  {
    if t != "" {
      var rest := Encode(t[1..]);
      FirstUnescape(t[1..]);
      OneTilde(t);
      if t[0] == '~' {
        FirstUnescapeTilde(rest);
      } else if t[0] == '/' {
        FirstUnescapeSlash(rest);
      } else {
        StepOver(t[0], rest);
      }
    }
  }

  lemma {:induction false} SecondUnescape(t: string)
    ensures Replace(Replace(t, "~", "~0"), "~0", "~") == t
  {
    if t != "" {
      SecondUnescape(t[1..]);
      var rest := Replace(t[1..], "~", "~0");
      assert t[..1] == [t[0]] && t == [t[0]] + t[1..];
      if t[0] == '~' {
        var s := "~0" + rest;
        assert s[..2] == "~0" && s[2..] == rest;
      } else {
        StepOver(t[0], rest);
      }
    }
  }

  /** Two sequential replacements each way, and every token survives. */
  lemma TokenRoundTrip(t: string)
    ensures Unescape(Escape(t)) == t
  {
    EscapeIsEncode(t);
    FirstUnescape(t);
    SecondUnescape(t);
  }

  /** Undoing the replacements in the other order loses the token "~1". */
  lemma OrderMatters()
    ensures Escape("~1") == "~01"
    ensures Unescape("~01") == "~1"
    ensures Replace(Replace("~01", "~0", "~"), "~1", "/") == "/"
  {
    EscapeIsEncode("~1");
    assert Encode("~1") == EncodeChar('~') + Encode("1");
    assert Encode("1") == EncodeChar('1') + Encode("");
    TokenRoundTrip("~1");
    assert "~01"[..2] == "~0" && "~01"[2..] == "1";
    assert Replace("1", "~0", "~") == "1";
    assert "~" + "1" == "~1" && "~1"[..2] == "~1" && "~1"[2..] == "";
    assert Replace("~01", "~0", "~") == "~1";
    assert Replace("", "~1", "/") == "";
  }

  // ----- Whole pointers -----

  predicate Slashless(s: string)
  {
    '/' !in s
  }

  lemma {:induction false} EncodeSlashless(t: string)
    ensures Slashless(Encode(t))
  {
    if t != "" { EncodeSlashless(t[1..]); }
  }

  /** Splitting a slashless piece followed by nothing or by a slash. */
  lemma {:induction false} SplitPiece(a: string, p: string)
    requires Slashless(a) && (p == "" || p[0] == '/')
    ensures Split(a + p) == [a] + Split(p)[1..]
  {
    if a == "" {
      assert a + p == p;
      if p != "" { assert Split(p) == [""] + Split(p[1..]); }
    } else {
      assert a[0] in a && forall c :: c in a[1..] ==> c in a;
      SplitPiece(a[1..], p);
      assert (a + p)[1..] == a[1..] + p && (a + p)[0] == a[0];
      assert [a[0]] + a[1..] == a;
    }
  }

  lemma SplitSlash(s: string)
    ensures Split("/" + s)[1..] == Split(s)
  {
    assert ("/" + s)[1..] == s;
    assert ([""] + Split(s))[1..] == Split(s);
  }

  /** The pieces after a slash: a slashless piece, then what follows it. */
  lemma SplitFirst(piece: string, rest: string)
    requires Slashless(piece) && (rest == "" || rest[0] == '/')
    ensures Split("/" + piece + rest)[1..] == [piece] + Split(rest)[1..]
  {
    assert "/" + piece + rest == "/" + (piece + rest);
    SplitSlash(piece + rest);
    SplitPiece(piece, rest);
  }

  lemma UnescapeFirst(piece: string, pieces: seq<string>)
    ensures UnescapeAll([piece] + pieces) == [Unescape(piece)] + UnescapeAll(pieces)
  {
    assert ([piece] + pieces)[1..] == pieces;
  }

  lemma {:induction false} SplitPrint(tokens: seq<string>)
    ensures UnescapeAll(Split(Print(tokens))[1..]) == tokens
  {
    if tokens != [] {
      var rest := Print(tokens[1..]);
      SplitPrint(tokens[1..]);
      EscapeIsEncode(tokens[0]);
      EncodeSlashless(tokens[0]);
      SplitFirst(Escape(tokens[0]), rest);
      UnescapeFirst(Escape(tokens[0]), Split(rest)[1..]);
      TokenRoundTrip(tokens[0]);
      assert tokens == [tokens[0]] + tokens[1..];
    }
  }

  /** Every list of tokens, the empty list and tokens such as "~01" included,
      survives printing and parsing. */
  lemma PointerRoundTrip(tokens: seq<string>)
    ensures Parse(Print(tokens)) == tokens
  {
    SplitPrint(tokens);
  }

  // ----- Which texts are printed pointers -----

  /** Every tilde begins "~0" or "~1". */
  predicate TildesOk(s: string)
  {
    s == "" ||
    if s[0] == '~' then |s| > 1 && (s[1] == '0' || s[1] == '1') && TildesOk(s[2..]) else TildesOk(s[1..])
  }

  /** The pointer grammar of section 3. */
  predicate IsPointer(s: string)
  {
    (s == "" || s[0] == '/') && TildesOk(s)
  }

  lemma {:induction false} TildesConcat(a: string, b: string)
    requires TildesOk(a) && TildesOk(b)
    ensures TildesOk(a + b)
  {
    if a == "" {
      assert a + b == b;
    } else if a[0] == '~' {
      TildesConcat(a[2..], b);
      assert (a + b)[2..] == a[2..] + b;
    } else {
      TildesConcat(a[1..], b);
      assert (a + b)[1..] == a[1..] + b;
    }
  }

  lemma {:induction false} EncodeTildes(t: string)
    ensures TildesOk(Encode(t))
  {
    if t != "" {
      EncodeTildes(t[1..]);
      var c := EncodeChar(t[0]);
      assert TildesOk(c) by { assert |c| == 2 ==> c[2..] == ""; assert |c| == 1 ==> c[1..] == ""; }
      TildesConcat(c, Encode(t[1..]));
    }
  }

  lemma {:induction false} PrintIsPointer(tokens: seq<string>)
    ensures IsPointer(Print(tokens))
  {
    if tokens != [] {
      PrintIsPointer(tokens[1..]);
      EscapeIsEncode(tokens[0]);
      EncodeTildes(tokens[0]);
      assert TildesOk("/") by { assert "/"[1..] == ""; }
      TildesConcat("/", Escape(tokens[0]));
      TildesConcat("/" + Escape(tokens[0]), Print(tokens[1..]));
    }
  }

  /** The token a well-escaped, slashless piece encodes. */
  function Decode(s: string): string
    requires TildesOk(s)
  {
    if s == "" then ""
    else if s[0] == '~' then [if s[1] == '0' then '~' else '/'] + Decode(s[2..])
    else [s[0]] + Decode(s[1..])
  }

  lemma {:induction false} DecodeEncode(s: string)
    requires TildesOk(s) && Slashless(s)
    ensures Encode(Decode(s)) == s
  {
    if s != "" {
      assert s[0] in s && forall c :: c in s[1..] ==> c in s;
      var d := Decode(s);
      if s[0] == '~' {
        assert forall c :: c in s[2..] ==> c in s;
        DecodeEncode(s[2..]);
        assert d[1..] == Decode(s[2..]);
        assert s == [s[0], s[1]] + s[2..];
      } else {
        DecodeEncode(s[1..]);
        assert d[1..] == Decode(s[1..]);
        assert s == [s[0]] + s[1..];
      }
    }
  }

  lemma PieceRoundTrip(s: string)
    requires TildesOk(s) && Slashless(s)
    ensures Escape(Unescape(s)) == s
  {
    DecodeEncode(s);
    EscapeIsEncode(Decode(s));
    TokenRoundTrip(Decode(s));
  }

  function Join(pieces: seq<string>): string
  {
    if pieces == [] then "" else "/" + pieces[0] + Join(pieces[1..])
  }

  lemma {:induction false} SplitJoins(s: string)
    ensures Split(s)[0] + Join(Split(s)[1..]) == s
    ensures forall p :: p in Split(s) ==> Slashless(p)
  {
    if s != "" {
      SplitJoins(s[1..]);
      var r := Split(s[1..]);
      assert s == [s[0]] + s[1..];
      if s[0] == '/' {
        assert ([""] + r)[1..] == r;
        assert Join(r) == "/" + r[0] + Join(r[1..]);
        assert "" + ("/" + r[0] + Join(r[1..])) == "/" + (r[0] + Join(r[1..]));
      } else {
        assert r[0] in r;
        assert ([[s[0]] + r[0]] + r[1..])[1..] == r[1..];
        assert [s[0]] + r[0] + Join(r[1..]) == [s[0]] + (r[0] + Join(r[1..]));
      }
    }
  }

  lemma {:induction false} PiecesTildes(s: string)
    requires TildesOk(s)
    ensures forall p :: p in Split(s) ==> TildesOk(p)
    decreases |s|
  {
    if s == "" {
    } else if s[0] == '~' {
      PiecesTildes(s[2..]);
      var r := Split(s[2..]);
      assert s[1..][1..] == s[2..] && s[1..][0] == s[1];
      var mid := Split(s[1..]);
      assert mid == [[s[1]] + r[0]] + r[1..];
      assert Split(s) == [['~'] + mid[0]] + mid[1..];
      var head := ['~'] + ([s[1]] + r[0]);
      assert r[0] in r && head[2..] == r[0];
      assert TildesOk(head);
      assert mid[1..] == r[1..];
    } else {
      PiecesTildes(s[1..]);
      var r := Split(s[1..]);
      assert r[0] in r;
      if s[0] != '/' {
        var head := [s[0]] + r[0];
        assert head[1..] == r[0];
      }
    }
  }

  lemma {:induction false} PrintPieces(pieces: seq<string>)
    requires forall p :: p in pieces ==> TildesOk(p) && Slashless(p)
    ensures Print(UnescapeAll(pieces)) == Join(pieces)
  {
    if pieces != [] {
      assert pieces[0] in pieces;
      PieceRoundTrip(pieces[0]);
      PrintPieces(pieces[1..]);
      assert UnescapeAll(pieces)[1..] == UnescapeAll(pieces[1..]);
    }
  }

  /** Parsing then printing returns a text exactly when it is a pointer by the
      grammar; any other text is silently normalised. */
  lemma PrintParseIff(s: string)
    ensures Print(Parse(s)) == s <==> IsPointer(s)
  {
    PrintIsPointer(Parse(s));
    if IsPointer(s) {
      SplitJoins(s);
      PiecesTildes(s);
      PrintPieces(Split(s)[1..]);
      assert Split(s)[0] == "" by { if s != "" { assert Split(s) == [""] + Split(s[1..]); } }
      assert "" + Join(Split(s)[1..]) == Join(Split(s)[1..]);
    }
  }
}
