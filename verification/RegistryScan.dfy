/** How the reader's brace matching and key search move over concatenated text. */
module RegistryScan {
  import opened Wrappers
  import opened Decimal
  import opened RegistryText

  // ----- Braces

  /** The brace depth after `text`, starting from `depth`; -1 if it ever drops below zero. */
  function Walk(text: string, depth: nat): (d: int)
    ensures d >= -1
  {
    if text == [] then depth
    else if text[0] == '{' then Walk(text[1..], depth + 1)
    else if text[0] == '}' then if depth == 0 then -1 else Walk(text[1..], depth - 1)
    else Walk(text[1..], depth)
  }

  /** As many closing as opening braces, and never more closing ones in a prefix. */
  predicate Balanced(text: string) {
    Walk(text, 0) == 0
  }

  predicate BraceFree(text: string) {
    '{' !in text && '}' !in text
  }

  lemma {:induction false} WalkAppend(a: string, b: string, depth: nat)
    ensures Walk(a + b, depth) == if Walk(a, depth) < 0 then -1 else Walk(b, Walk(a, depth))
  {
    if a == [] {
      assert a + b == b;
    } else {
      assert (a + b)[1..] == a[1..] + b;
      if a[0] == '{' {
        WalkAppend(a[1..], b, depth + 1);
      } else if a[0] != '}' {
        WalkAppend(a[1..], b, depth);
      } else if depth > 0 {
        WalkAppend(a[1..], b, depth - 1);
      }
    }
  }

  lemma {:induction false} WalkBraceFree(a: string, depth: nat)
    requires BraceFree(a)
    ensures Walk(a, depth) == depth
  {
    if a != [] {
      WalkBraceFree(a[1..], depth);
    }
  }

  /** Matching passes over `a` when `a` does not close the outermost brace itself. */
  lemma {:induction false} ClosePasses(a: string, rest: string, depth: nat)
    requires depth > 0 && Walk(a, depth - 1) >= 0
    ensures var n := Close(rest, Walk(a, depth - 1) + 1);
            Close(a + rest, depth) == if n < 0 then -1 else |a| + n
  {
    if a == [] {
      assert a + rest == rest;
    } else {
      assert (a + rest)[1..] == a[1..] + rest && (a + rest)[0] == a[0];
      ClosePasses(a[1..], rest, if a[0] == '{' then depth + 1 else if a[0] == '}' then depth - 1 else depth);
    }
  }

  /** Matching ends inside `a` when `a` closes the outermost brace. */
  lemma {:induction false} CloseInside(a: string, rest: string, depth: nat)
    requires depth > 0 && Walk(a, depth - 1) < 0
    ensures 0 <= Close(a, depth) == Close(a + rest, depth)
  {
    if a != [] {
      assert (a + rest)[1..] == a[1..] + rest && (a + rest)[0] == a[0];
      if !(a[0] == '}' && depth == 1) {
        CloseInside(a[1..], rest, if a[0] == '{' then depth + 1 else if a[0] == '}' then depth - 1 else depth);
      }
    }
  }

  /** What is left after the matching brace of a text that closes all its braces is balanced. */
  lemma {:induction false} CloseBalanced(a: string, depth: nat)
    requires depth > 0 && Walk(a, depth) == 0
    ensures Walk(a, depth - 1) < 0
    ensures Close(a, depth) >= 0 && Balanced(a[Close(a, depth) + 1..])
  {
    if a[0] == '}' && depth == 1 {
    } else {
      var depth' := if a[0] == '{' then depth + 1 else if a[0] == '}' then depth - 1 else depth;
      CloseBalanced(a[1..], depth');
      assert a[Close(a, depth) + 1..] == a[1..][Close(a[1..], depth') + 1..];
    }
  }

  /** What follows the brace that closes `depth` open ones. */
  function Behind(text: string, depth: nat): string
    requires depth > 0
  {
    text[Close(text, depth) + 1..]
  }

  lemma ReadBrace(inner: string)
    ensures ReadText("{" + inner) ==
            if Close(inner, 1) < 0 then ReadText(inner)
            else ParseObject(inner[..Close(inner, 1)]) + ReadText(Behind(inner, 1))
  {
    hide ParseObject, Close;
    assert ("{" + inner)[1..] == inner;
  }

  /** A balanced text behind its first brace is an object and a shorter balanced text. */
  lemma SplitObject(a: string, b: string)
    requires Walk(a, 1) == 0
    ensures 0 <= Close(a, 1) == Close(a + b, 1)
    ensures (a + b)[..Close(a, 1)] == a[..Close(a, 1)]
    ensures Behind(a + b, 1) == Behind(a, 1) + b
    ensures Balanced(Behind(a, 1))
  {
    CloseBalanced(a, 1);
    CloseInside(a, b, 1);
  }

  lemma ReadNothing(b: string)
    ensures ReadText([]) + ReadText(b) == ReadText(b)
  {
  }

  lemma ReadRest(text: string)
    requires text != [] && text[0] != '{'
    ensures ReadText(text) == ReadText(text[1..])
  {
    hide Close, ParseObject;
  }

  lemma BalancedRest(a: string)
    requires Balanced(a) && a != []
    ensures if a[0] == '{' then Walk(a[1..], 1) == 0 else Balanced(a[1..])
  {
  }

  /** The reader splits a text at the end of any balanced prefix. */
  lemma {:induction false} ReadAppend(a: string, b: string)
    requires Balanced(a)
    ensures ReadText(a + b) == ReadText(a) + ReadText(b)
    decreases |a|
  {
    hide ReadText, Walk, Balanced, Close, Behind, ParseObject;
    if a == [] {
      assert a + b == b;
      ReadNothing(b);
    } else if a[0] != '{' {
      BalancedRest(a);
      ReadAppend(a[1..], b);
      ReadRest(a);
      ReadRest(a + b);
      assert (a + b)[1..] == a[1..] + b;
    } else {
      var inner := a[1..];
      BalancedRest(a);
      SplitObject(inner, b);
      BehindIs(inner, 1);
      ReadAppend(Behind(inner, 1), b);
      ReadObjectAppend(inner, b);
      assert a == "{" + inner && a + b == "{" + (inner + b);
    }
  }

  /** The case of an object in front, given what the rest reads as. */
  lemma ReadObjectAppend(inner: string, b: string)
    requires Walk(inner, 1) == 0
    requires ReadText(Behind(inner, 1) + b) == ReadText(Behind(inner, 1)) + ReadText(b)
    ensures ReadText("{" + (inner + b)) == ReadText("{" + inner) + ReadText(b)
  {
    hide *;
    ReadBrace(inner);
    ReadBrace(inner + b);
    SplitObject(inner, b);
    var first := ParseObject(inner[..Close(inner, 1)]);
    assert first + (ReadText(Behind(inner, 1)) + ReadText(b)) == (first + ReadText(Behind(inner, 1))) + ReadText(b);
  }

  lemma BehindIs(text: string, depth: nat)
    requires depth > 0
    ensures Behind(text, depth) == text[Close(text, depth) + 1..]
  {
  }

  lemma {:induction false} ReadSkips(a: string, b: string)
    requires '{' !in a
    ensures ReadText(a + b) == ReadText(b)
  {
    if a == [] {
      assert a + b == b;
    } else {
      assert (a + b)[1..] == a[1..] + b && (a + b)[0] == a[0];
      ReadSkips(a[1..], b);
    }
  }

  // ----- Keys

  predicate Plain(text: string) {
    '"' !in text
  }

  lemma {:induction false} NatTextPlain(n: nat)
    ensures Plain(NatText(n)) && BraceFree(NatText(n))
  {
    forall c | c in NatText(n) ensures IsDigit(c) {}
  }

  lemma IntTextPlain(n: int)
    ensures Plain(IntText(n)) && BraceFree(IntText(n)) && IntText(n) != ""
  {
    NatTextPlain(if n < 0 then -n else n);
  }

  lemma {:induction false} AfterPlain(a: string, text: string, key: string)
    requires Plain(a) && key != [] && key[0] == '"'
    ensures After(a + text, key) == After(text, key)
  {
    if a == [] {
      assert a + text == text;
    } else {
      assert (a + text)[1..] == a[1..] + text && (a + text)[0] == a[0];
      AfterPlain(a[1..], text, key);
    }
  }

  /** A quoted text is not a key when it is another word, or when no ':' follows it. */
  lemma QuotedIsNotKey(k: string, suffix: string, s: string, x: string)
    requires Plain(k) && Plain(s) && x != "" && (s != k || x[0] != ':')
    ensures !(Key(k) + suffix <= "\"" + (s + ("\"" + x)))
  {
    var key, text := Key(k) + suffix, "\"" + (s + ("\"" + x));
    assert |key| >= |k| + 3 && |text| >= |s| + 3;
    assert forall i :: 0 <= i < |k| ==> key[i + 1] == k[i];
    assert forall i :: 0 <= i < |s| ==> text[i + 1] == s[i];
    assert key[|k| + 1] == '"' && key[|k| + 2] == ':';
    assert text[|s| + 1] == '"' && text[|s| + 2] == x[0];
    assert key <= text && |s| == |k| ==> s == k;
  }

  lemma AfterQuoted(k: string, suffix: string, s: string, x: string)
    requires Plain(k) && k != "" && Plain(s)
    requires x != "" && x[0] != k[0] && (s != k || x[0] != ':')
    ensures After("\"" + (s + ("\"" + x)), Key(k) + suffix) == After(x, Key(k) + suffix)
  {
    var key, text := Key(k) + suffix, "\"" + (s + ("\"" + x));
    QuotedIsNotKey(k, suffix, s, x);
    assert text[1..] == s + ("\"" + x);
    AfterPlain(s, "\"" + x, key);
    assert ("\"" + x)[1..] == x && key[1] == k[0];
    assert !(key <= "\"" + x);
  }

  lemma AfterHere(key: string, rest: string)
    ensures After(key + rest, key) == Some(rest)
  {
    assert (key + rest)[|key|..] == rest;
  }

  lemma {:induction false} UpToQuoteStops(s: string, rest: string)
    requires Plain(s)
    ensures UpToQuote(s + ("\"" + rest)) == Some(s)
  {
    if s == [] {
      assert s + ("\"" + rest) == "\"" + rest;
    } else {
      assert (s + ("\"" + rest))[1..] == s[1..] + ("\"" + rest);
      UpToQuoteStops(s[1..], rest);
      assert [s[0]] + s[1..] == s;
    }
  }

  lemma {:induction false} UpToQuoteIsPlain(text: string)
    ensures UpToQuote(text).Some? ==> Plain(UpToQuote(text).value)
    ensures Plain(text) ==> UpToQuote(text).None?
  {
    if text != [] {
      UpToQuoteIsPlain(text[1..]);
    }
  }
}
