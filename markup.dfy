/**
 * `isHTMLElement` and `isHTMLString`: the two tests `mount` uses to
 * classify its argument.
 */
module Markup {
  import opened JsValues

  /**
   * Positions `i` and `j` bound a match of the pattern `<[^>]+>`:
   * a `<`, one or more characters other than `>`, then a `>`.
   */
  predicate TagSpan(s: string, i: int, j: int)
  {
    0 <= i && i + 1 < j < |s| && s[i] == '<' && s[j] == '>' &&
    forall k :: i < k < j ==> s[k] != '>'
  }

  /** The regular expression `(<([^>]+)>)` matches somewhere in `s`. */
  ghost predicate ContainsTag(s: string)
  {
    exists i, j :: TagSpan(s, i, j)
  }

  /** States of a left-to-right scanner for `<[^>]+>`. */
  datatype ScanState =
    | Outside    // no `<` pending
    | AfterOpen  // just read a `<`
    | InTag      // read a `<` and at least one character other than `>`

  /** The scanner run on `s` from state `st` reaches a closing `>`. */
  function Scan(s: string, st: ScanState): bool
    decreases |s|
  {
    if s == [] then false
    else match st
      case Outside => Scan(s[1..], if s[0] == '<' then AfterOpen else Outside)
      case AfterOpen => Scan(s[1..], if s[0] == '>' then Outside else InTag)
      case InTag => s[0] == '>' || Scan(s[1..], InTag)
  }

  /** A `<` at `i`, a non-`>` right after it, and some `>` later on. */
  ghost predicate OpensAt(s: string, i: int)
  {
    0 <= i && i + 1 < |s| && s[i] == '<' && s[i + 1] != '>' && '>' in s[i + 2..]
  }

  lemma {:induction false} ScanInTag(s: string)
    ensures Scan(s, InTag) <==> '>' in s
    decreases |s|
  {
    if s != [] {
      ScanInTag(s[1..]);
      assert s == [s[0]] + s[1..];
    }
  }

  /** Dropping a first character that is not a `<` keeps the openings, shifted by one. */
  lemma OpensShift(s: string)
    requires s != []
    ensures (exists i :: OpensAt(s, i)) <==> (s[0] == '<' && OpensAt(s, 0)) || (exists i :: OpensAt(s[1..], i))
  {
    var t := s[1..];
    if i :| OpensAt(s, i) {
      if i > 0 {
        assert t[i - 1 + 2..] == s[i + 2..];
        assert OpensAt(t, i - 1);
      }
    }
    if i :| OpensAt(t, i) {
      assert s[i + 1 + 2..] == t[i + 2..];
      assert OpensAt(s, i + 1);
    }
  }

  /** The scanner from `Outside` accepts exactly the strings with an opening. */
  lemma {:induction false} ScanOutside(s: string)
    ensures Scan(s, Outside) <==> exists i :: OpensAt(s, i)
    decreases |s|
  {
    if s == [] {
      return;
    }
    OpensShift(s);
    var t := s[1..];
    if s[0] != '<' {
      ScanOutside(t);
    } else if t == [] {
      assert !OpensAt(s, 0);
      assert forall i :: !OpensAt(t, i);
    } else if t[0] == '>' {
      ScanOutside(t[1..]);
      OpensShift(t);
      assert !OpensAt(s, 0) && !OpensAt(t, 0);
    } else {
      ScanInTag(t[1..]);
      assert s[2..] == t[1..];
      if '>' in t[1..] {
        assert OpensAt(s, 0);
      }
    }
  }

  /** Index of the first `c` in `s`. */
  function IndexOf(s: string, c: char): (r: nat)
    requires c in s
    ensures r < |s| && s[r] == c
    ensures forall k :: 0 <= k < r ==> s[k] != c
  {
    if s[0] == c then 0 else 1 + IndexOf(s[1..], c)
  }

  /** The regex form and the opening form describe the same strings. */
  lemma ContainsTagIffOpens(s: string)
    ensures ContainsTag(s) <==> exists i :: OpensAt(s, i)
  {
    if i, j :| TagSpan(s, i, j) {
      assert s[i + 2..][j - i - 2] == '>';
      assert OpensAt(s, i);
    }
    if i :| OpensAt(s, i) {
      var j := i + 2 + IndexOf(s[i + 2..], '>');
      forall k | i < k < j ensures s[k] != '>' {
        if k > i + 1 {
          assert s[k] == s[i + 2..][k - i - 2];
        }
      }
      assert TagSpan(s, i, j);
    }
  }

  /**
   * `/(<([^>]+)>)/i.test(s)`: true exactly when `s` holds a tag-like span.
   * The case-insensitive flag has no effect on this pattern.
   */
  function HasTag(s: string): (r: bool)
    ensures r <==> ContainsTag(s)
  {
    ScanOutside(s);
    ContainsTagIffOpens(s);
    Scan(s, Outside)
  }

  /** `isHTMLString`: a string value in which the tag pattern matches. */
  function IsHTMLString(v: JsValue): (r: bool)
    ensures r <==> v.Str? && ContainsTag(v.s)
  {
    v.Str? && HasTag(v.s)
  }

  /** `isHTMLElement`: a truthy object whose `tagName` is a string; every object is truthy. */
  function IsHTMLElement(v: JsValue): (r: bool)
    ensures r <==> v.Object? && v.obj.tagName.Some?
  {
    Truthy(v) && v.Object? && v.obj.tagName.Some?
  }

  /** No value is both an element and a markup string. */
  lemma ElementAndStringDisjoint(v: JsValue)
    ensures !(IsHTMLElement(v) && IsHTMLString(v))
  {
  }
}
