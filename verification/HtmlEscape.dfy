// Escaping text for HTML by five replacement passes, one after the other over
// the whole text.

module HtmlEscape {
  // One pass: every occurrence of a character, by an entity.
  function Replace(s: string, c: char, entity: string): string {
    if s == [] then [] else (if s[0] == c then entity else [s[0]]) + Replace(s[1..], c, entity)
  }

  function Escape(s: string): string {
    var ampersands := Replace(s, '&', "&amp;");
    var opening := Replace(ampersands, '<', "&lt;");
    var closing := Replace(opening, '>', "&gt;");
    var quotes := Replace(closing, '"', "&quot;");
    Replace(quotes, '\'', "&#x27;")
  }

  // ----- the same in one pass -----

  function Entity(c: char): string {
    match c
    case '&' => "&amp;"
    case '<' => "&lt;"
    case '>' => "&gt;"
    case '"' => "&quot;"
    case '\'' => "&#x27;"
    case _ => [c]
  }

  function EscapeEach(s: string): string {
    if s == [] then [] else Entity(s[0]) + EscapeEach(s[1..])
  }

  lemma {:induction false} ReplaceConcat(a: string, b: string, c: char, entity: string)
    ensures Replace(a + b, c, entity) == Replace(a, c, entity) + Replace(b, c, entity)
  {
    if a == [] {
      assert a + b == b;
    } else {
      assert (a + b)[1..] == a[1..] + b;
      ReplaceConcat(a[1..], b, c, entity);
    }
  }

  lemma {:induction false} ReplaceAbsent(s: string, c: char, entity: string)
    requires c !in s
    ensures Replace(s, c, entity) == s
  {
    if s != [] {
      assert forall x :: x in s[1..] ==> x in s;
      ReplaceAbsent(s[1..], c, entity);
      assert [s[0]] + s[1..] == s;
    }
  }

  // A pass after one that wrote an entity leaves the entity alone.
  lemma Pass(head: string, tail: string, c: char, entity: string)
    requires c !in head
    ensures Replace(head + tail, c, entity) == head + Replace(tail, c, entity)
  {
    ReplaceConcat(head, tail, c, entity);
    ReplaceAbsent(head, c, entity);
  }

  // The passes from the k-th on: k == 0 is all five of them, k == 5 none.
  function Passes(s: string, k: nat): string
    requires k <= 5
    decreases 5 - k
  {
    if k == 5 then s else Passes(Replace(s, SPECIAL[k], Entity(SPECIAL[k])), k + 1)
  }

  const SPECIAL := ['&', '<', '>', '"', '\'']

  // Text without any of the characters still to be replaced goes through
  // untouched. The ampersand has to come first: every entity holds one.
  lemma {:induction false} Through(head: string, tail: string, k: nat)
    requires k <= 5
    requires forall j :: k <= j < 5 ==> SPECIAL[j] !in head
    ensures Passes(head + tail, k) == head + Passes(tail, k)
    decreases 5 - k
  {
    if k < 5 {
      Pass(head, tail, SPECIAL[k], Entity(SPECIAL[k]));
      Through(head, Replace(tail, SPECIAL[k], Entity(SPECIAL[k])), k + 1);
    }
  }

  lemma EntityIsSafe(k: nat)
    requires k < 5
    ensures forall j :: k < j < 5 ==> SPECIAL[j] !in Entity(SPECIAL[k])
  {
  }

  // One character in front, none of whose passes before the k-th applies.
  lemma {:induction false} FirstChar(c: char, tail: string, k: nat)
    requires k <= 5
    requires forall j :: 0 <= j < k ==> SPECIAL[j] != c
    ensures Passes([c] + tail, k) == Entity(c) + Passes(tail, k)
    decreases 5 - k
  {
    if k < 5 {
      var entity := Entity(SPECIAL[k]);
      if c == SPECIAL[k] {
        assert ([c] + tail)[1..] == tail;
        assert Replace([c] + tail, c, entity) == entity + Replace(tail, c, entity);
        EntityIsSafe(k);
        Through(entity, Replace(tail, c, entity), k + 1);
      } else {
        Pass([c], tail, SPECIAL[k], entity);
        FirstChar(c, Replace(tail, SPECIAL[k], entity), k + 1);
      }
    } else {
      assert c != SPECIAL[0] && c != SPECIAL[1] && c != SPECIAL[2] && c != SPECIAL[3] && c != SPECIAL[4];
    }
  }

  lemma PassesOfEmpty()
    ensures Passes("", 0) == ""
  {
  }

  // Five passes over the text are one substitution of each character.
  lemma {:induction false} PassesAreOneSubstitution(s: string)
    ensures Passes(s, 0) == EscapeEach(s)
  {
    if s == [] {
      PassesOfEmpty();
    } else {
      assert [s[0]] + s[1..] == s;
      FirstChar(s[0], s[1..], 0);
      PassesAreOneSubstitution(s[1..]);
    }
  }

  lemma EscapeIsPasses(s: string)
    ensures Escape(s) == Passes(s, 0)
  {
  }

  // ----- what the result means -----

  // Reading the five entities back; any other ampersand stands for itself.
  function Unescape(s: string): string {
    if s == [] then []
    else if "&amp;" <= s then "&" + Unescape(s[5..])
    else if "&lt;" <= s then "<" + Unescape(s[4..])
    else if "&gt;" <= s then ">" + Unescape(s[4..])
    else if "&quot;" <= s then "\"" + Unescape(s[6..])
    else if "&#x27;" <= s then "'" + Unescape(s[6..])
    else [s[0]] + Unescape(s[1..])
  }

  // Two entities with different second characters do not begin the same text.
  lemma Differs(s: string, e: string, f: string)
    requires e <= s && |e| > 1 && |f| > 1 && e[1] != f[1]
    ensures !(f <= s)
  {
    assert s[1] == e[1];
  }

  lemma UnescapeFirst(c: char, rest: string)
    ensures Unescape(Entity(c) + rest) == [c] + Unescape(rest)
  {
    var s := Entity(c) + rest;
    assert s[|Entity(c)|..] == rest && Entity(c) <= s;
    match c
    case '&' =>
    case '<' =>
      Differs(s, "&lt;", "&amp;");
    case '>' =>
      Differs(s, "&gt;", "&amp;");
      Differs(s, "&gt;", "&lt;");
    case '"' =>
      Differs(s, "&quot;", "&amp;");
      Differs(s, "&quot;", "&lt;");
      Differs(s, "&quot;", "&gt;");
    case '\'' =>
      Differs(s, "&#x27;", "&amp;");
      Differs(s, "&#x27;", "&lt;");
      Differs(s, "&#x27;", "&gt;");
      Differs(s, "&#x27;", "&quot;");
    case _ =>
      assert s[0] != '&';
  }

  lemma {:induction false} UnescapeEach(s: string)
    ensures Unescape(EscapeEach(s)) == s
  {
    if s != [] {
      UnescapeFirst(s[0], EscapeEach(s[1..]));
      UnescapeEach(s[1..]);
      assert [s[0]] + s[1..] == s;
    }
  }

  lemma {:induction false} EachHasNoMarkup(s: string)
    ensures forall c :: c in EscapeEach(s) ==> c !in {'<', '>', '"', '\''}
  {
    if s != [] {
      EachHasNoMarkup(s[1..]);
      assert forall c :: c in Entity(s[0]) ==> c !in {'<', '>', '"', '\''};
    }
  }

  // Escaping can be read back, so no two texts escape alike, and what it
  // produces holds no character that ends a text or an attribute value.
  lemma EscapeIsFaithful(s: string, t: string)
    ensures Escape(s) == EscapeEach(s)
    ensures Unescape(Escape(s)) == s
    ensures Escape(s) == Escape(t) ==> s == t
    ensures forall c :: c in Escape(s) ==> c !in {'<', '>', '"', '\''}
  {
    EscapeIsPasses(s);
    PassesAreOneSubstitution(s);
    EscapeIsPasses(t);
    PassesAreOneSubstitution(t);
    UnescapeEach(s);
    UnescapeEach(t);
    EachHasNoMarkup(s);
  }
}
