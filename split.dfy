/** The hand-written tokenizer of the trace post-processing script
    (`split` in generate_memtrace_classes.py): it cuts a simulator line into
    its non-space words, keeping an empty first word when the line starts
    with a space. */
module SpaceSplit {
  import opened Text

  /** The maximal runs of non-space characters of `s`, in order. */
  function Words(s: string): (r: seq<string>)
    ensures s != [] && s[|s| - 1] != ' ' ==> |r| >= 1
    decreases |s|
  {
    if s == [] then []
    else
      var p := s[..|s| - 1];
      var c := s[|s| - 1];
      if c == ' ' then Words(p)
      else if p != [] && p[|p| - 1] != ' ' then
        var w := Words(p);
        w[..|w| - 1] + [w[|w| - 1] + [c]]
      else Words(p) + [[c]]
  }

  /** What the script's `split` returns: the words, preceded by an empty
      word when the line starts with a space and has a word at all, and
      `[""]` when there is no word. */
  function Tokens(s: string): seq<string>
  {
    var w := Words(s);
    (if s != [] && s[0] == ' ' && w != [] then [""] else [])
      + (if w == [] then [""] else w)
  }

  /** `s` with every space removed. */
  function Unspaced(s: string): (r: string)
    decreases |s|
  {
    if s == [] then []
    else Unspaced(s[..|s| - 1]) + (if s[|s| - 1] == ' ' then [] else [s[|s| - 1]])
  }

  predicate AllSpaces(s: string)
  {
    forall k :: 0 <= k < |s| ==> s[k] == ' '
  }

  /** The tokenizer: `word` grows while no space has been passed; the first
      non-space character after spaces closes the word and starts a new one. */
  method Split(s: string) returns (words: seq<string>)
    ensures words == Tokens(s)
  {
    var listOfWords: seq<string> := [];
    var spacePassed := false;
    var word := "";
    for i := 0 to |s|
      invariant listOfWords + [word] == Tokens(s[..i])
      invariant spacePassed <==> i > 0 && s[i - 1] == ' '
    {
      var c := s[i];
      assert s[..i + 1] == s[..i] + [c];
      TokensSnoc(s[..i], c);
      if c == ' ' {
        spacePassed := true;
      } else if spacePassed {
        listOfWords := listOfWords + [word];
        word := [c];
        spacePassed := false;
      } else {
        word := word + [c];
      }
    }
    assert s[..|s|] == s;
    words := listOfWords + [word];
  }

  // ---------------------------------------------------------------------
  // What the tokenizer promises

  /** One more character: a space leaves the tokens alone, a character
      after a space is a new token, any other character extends the last
      token. */
  lemma TokensSnoc(p: string, c: char)
    ensures c == ' ' ==> Tokens(p + [c]) == Tokens(p)
    ensures c != ' ' && p != [] && p[|p| - 1] == ' ' ==> Tokens(p + [c]) == Tokens(p) + [[c]]
    ensures c != ' ' && (p == [] || p[|p| - 1] != ' ') ==>
      Tokens(p + [c]) == Tokens(p)[..|Tokens(p)| - 1] + [Tokens(p)[|Tokens(p)| - 1] + [c]]
  {
    if c == ' ' {
      TokensSnocSpace(p);
    } else if p != [] && p[|p| - 1] == ' ' {
      TokensSnocStart(p, c);
    } else {
      TokensSnocExtend(p, c);
    }
  }

  /** The leading empty token depends only on the first character. */
  function Lead(s: string, w: seq<string>): seq<string>
  {
    if s != [] && s[0] == ' ' && w != [] then [""] else []
  }

  lemma TokensSnocSpace(p: string)
    ensures Tokens(p + [' ']) == Tokens(p)
  {
    var q := p + [' '];
    WordsSnoc(p, ' ');
    assert p != [] ==> q[0] == p[0];
  }

  lemma TokensSnocStart(p: string, c: char)
    requires c != ' ' && p != [] && p[|p| - 1] == ' '
    ensures Tokens(p + [c]) == Tokens(p) + [[c]]
  {
    var q := p + [c];
    var w := Words(p);
    WordsSnoc(p, c);
    assert q[0] == p[0];
    if w == [] {
      WordsEmptyAllSpaces(p);
      assert q[0] == ' ';
      assert Tokens(q) == [""] + [[c]];
    } else {
      var l := Lead(p, w);
      assert Tokens(p) == l + w;
      assert Tokens(q) == l + (w + [[c]]);
      AppendAssoc(l, w, [[c]]);
    }
  }

  lemma TokensSnocExtend(p: string, c: char)
    requires c != ' ' && (p == [] || p[|p| - 1] != ' ')
    ensures Tokens(p + [c]) == Tokens(p)[..|Tokens(p)| - 1] + [Tokens(p)[|Tokens(p)| - 1] + [c]]
  {
    var q := p + [c];
    WordsSnoc(p, c);
    if p == [] {
      assert Words(q) == [[c]];
      assert Tokens(q) == [[c]];
    } else {
      var w := Words(p);
      var l := Lead(p, w);
      var w' := w[..|w| - 1] + [w[|w| - 1] + [c]];
      var t := Tokens(p);
      assert t == l + w;
      assert Tokens(q) == l + w' by {
        assert q[0] == p[0];
        assert Lead(q, w') == l;
      }
      assert t[..|t| - 1] == l + w[..|w| - 1] && t[|t| - 1] == w[|w| - 1] by {
        assert (l + w)[..|l + w| - 1] == l + w[..|w| - 1];
      }
      AppendAssoc(l, w[..|w| - 1], [w[|w| - 1] + [c]]);
    }
  }

  /** A line has no word exactly when it is all spaces. */
  lemma {:induction false} WordsEmptyAllSpaces(s: string)
    ensures Words(s) == [] <==> AllSpaces(s)
    decreases |s|
  {
    if s != [] {
      var p := s[..|s| - 1];
      WordsEmptyAllSpaces(p);
      if s[|s| - 1] == ' ' {
        if AllSpaces(p) {
          assert forall k :: 0 <= k < |s| ==> s[k] == ' ' by {
            forall k | 0 <= k < |s| ensures s[k] == ' ' {
              if k < |p| { assert s[k] == p[k]; }
            }
          }
        } else {
          var k :| 0 <= k < |p| && p[k] != ' ';
          assert s[k] != ' ';
        }
      }
    }
  }

  /** Every word is nonempty and space-free, and the words together are the
      line without its spaces. */
  lemma WordsShape(s: string)
    ensures forall k :: 0 <= k < |Words(s)| ==> Words(s)[k] != [] && NoSpace(Words(s)[k])
    ensures Concat(Words(s)) == Unspaced(s)
  {
    WordsNoSpace(s);
    WordsConcat(s);
  }

  lemma {:induction false} WordsNoSpace(s: string)
    ensures forall k :: 0 <= k < |Words(s)| ==> Words(s)[k] != [] && NoSpace(Words(s)[k])
    decreases |s|
  {
    if s != [] {
      var p := s[..|s| - 1];
      var c := s[|s| - 1];
      WordsNoSpace(p);
      if c != ' ' && p != [] && p[|p| - 1] != ' ' {
        var w := Words(p);
        assert NoSpace(w[|w| - 1] + [c]);
      }
    }
  }

  lemma {:induction false} WordsConcat(s: string)
    ensures Concat(Words(s)) == Unspaced(s)
    decreases |s|
  {
    if s != [] {
      var p := s[..|s| - 1];
      var c := s[|s| - 1];
      WordsConcat(p);
      var w := Words(p);
      if c != ' ' {
        if p != [] && p[|p| - 1] != ' ' {
          var init := w[..|w| - 1];
          var last := w[|w| - 1];
          assert w == init + [last];
          ConcatAppend(init, last);
          ConcatAppend(init, last + [c]);
        } else {
          ConcatAppend(w, [c]);
        }
      }
    }
  }

  /** The script's `split` never yields a word holding a space, joining its
      words gives the line without spaces, it yields `[""]` exactly for an
      all-space line, and its first word is empty when the line starts with
      a space. */
  lemma TokensShape(s: string)
    ensures |Tokens(s)| >= 1
    ensures forall k :: 0 <= k < |Tokens(s)| ==> NoSpace(Tokens(s)[k])
    ensures Concat(Tokens(s)) == Unspaced(s)
    ensures Tokens(s) == [""] <==> AllSpaces(s)
    ensures s != [] && s[0] == ' ' ==> Tokens(s)[0] == ""
    ensures forall k :: 1 <= k < |Tokens(s)| ==> Tokens(s)[k] != []
    ensures Tokens(s)[0] != "" ==> s != [] && s[0] != ' ' && Tokens(s) == Words(s)
    ensures Tokens(s)[0] == "" && |Tokens(s)| >= 2 ==> s != [] && s[0] == ' ' && Tokens(s) == [""] + Words(s)
  {
    WordsShape(s);
    WordsEmptyAllSpaces(s);
    var w := Words(s);
    if w == [] {
      assert Tokens(s) == [""];
    } else {
      assert w[0] != [];
      if s != [] && s[0] == ' ' {
        assert Tokens(s) == [""] + w;
        assert Concat([""] + w) == "" + Concat(w);
        assert !AllSpaces(s);
      } else {
        assert Tokens(s) == w;
        assert w != [""];
        assert !AllSpaces(s) by {
          assert s != [];
          assert s[0] != ' ';
        }
      }
    }
  }

  function Spaces(n: nat): (r: string)
    ensures |r| == n && AllSpaces(r)
  {
    if n == 0 then "" else Spaces(n - 1) + " "
  }

  /** Trailing spaces add no word. */
  lemma {:induction false} WordsTrailingSpaces(a: string, n: nat)
    ensures Words(a + Spaces(n)) == Words(a)
  {
    if n > 0 {
      var s := a + Spaces(n);
      assert s[..|s| - 1] == a + Spaces(n - 1) && s[|s| - 1] == ' ';
      WordsTrailingSpaces(a, n - 1);
    } else {
      assert a + Spaces(n) == a;
    }
  }

  /** A nonempty space-free word after at least one space is one more word. */
  lemma {:induction false} WordsAppendWord(a: string, n: nat, w: string)
    requires n >= 1 && w != [] && NoSpace(w)
    ensures Words(a + Spaces(n) + w) == Words(a) + [w]
    decreases |w|
  {
    var c := w[|w| - 1];
    if |w| == 1 {
      WordsTrailingSpaces(a, n);
      WordsSnoc(a + Spaces(n), c);
      assert w == [c];
    } else {
      var w' := w[..|w| - 1];
      var p := a + Spaces(n) + w';
      assert w == w' + [c];
      assert a + Spaces(n) + w == p + [c];
      WordsAppendWord(a, n, w');
      WordsSnoc(p, c);
      var wp := Words(p);
      assert wp[..|wp| - 1] == Words(a);
    }
  }

  /** One more character: a space adds nothing, a character after a space
      starts a word, any other character extends the last word. */
  lemma WordsSnoc(p: string, c: char)
    ensures c == ' ' ==> Words(p + [c]) == Words(p)
    ensures c != ' ' && (p == [] || p[|p| - 1] == ' ') ==> Words(p + [c]) == Words(p) + [[c]]
    ensures c != ' ' && p != [] && p[|p| - 1] != ' ' ==>
      |Words(p)| >= 1 && Words(p + [c]) == Words(p)[..|Words(p)| - 1] + [Words(p)[|Words(p)| - 1] + [c]]
  {
    var s := p + [c];
    assert s[..|s| - 1] == p;
  }

  /** A nonempty space-free word is its own only word. */
  lemma {:induction false} WordsOfWord(w: string)
    requires w != [] && NoSpace(w)
    ensures Words(w) == [w]
    decreases |w|
  {
    if |w| > 1 {
      var w' := w[..|w| - 1];
      WordsOfWord(w');
      assert w == w' + [w[|w| - 1]] && w'[|w'| - 1] != ' ';
    } else {
      assert w[..0] == [] && w == [w[0]];
    }
  }
}
