/** JavaScript strings as the roll inspector sees them: sequences of UTF-16 code
    units, compared code unit by code unit (the order of `Array.prototype.sort()`
    with no comparator) and searched with `String.prototype.includes`. */
module JsStrings {

  /** One UTF-16 code unit. */
  newtype CodeUnit = x: int | 0 <= x < 0x1_0000

  /** A JavaScript string value. */
  type JsString = seq<CodeUnit>

  const Colon: CodeUnit := 0x3A
  const Space: CodeUnit := 0x20

  /** The JavaScript string an ASCII source-text literal denotes: one code unit
      per character. */
  function Ascii(s: string): (r: JsString)
    requires forall k :: 0 <= k < |s| ==> (s[k] as int) < 0x80
    ensures |r| == |s|
    ensures forall k :: 0 <= k < |s| ==> r[k] as int == s[k] as int
  {
    seq(|s|, k requires 0 <= k < |s| => s[k] as int as CodeUnit)
  }

  /** `a <= b` in JavaScript's string order: the first differing code unit decides,
      and a proper prefix comes first. */
  predicate Below(a: JsString, b: JsString)
  {
    a == [] || (b != [] && (a[0] < b[0] || (a[0] == b[0] && Below(a[1..], b[1..]))))
  }

  lemma {:induction false} BelowReflexive(a: JsString)
    ensures Below(a, a)
  {
    if a != [] {
      BelowReflexive(a[1..]);
    }
  }

  lemma {:induction false} BelowAntisymmetric(a: JsString, b: JsString)
    requires Below(a, b) && Below(b, a)
    ensures a == b
  {
    if a != [] && b != [] {
      BelowAntisymmetric(a[1..], b[1..]);
      assert a == [a[0]] + a[1..] && b == [b[0]] + b[1..];
    }
  }

  lemma {:induction false} BelowTransitive(a: JsString, b: JsString, c: JsString)
    requires Below(a, b) && Below(b, c)
    ensures Below(a, c)
  {
    if a != [] && b != [] && c != [] && a[0] == b[0] == c[0] {
      BelowTransitive(a[1..], b[1..], c[1..]);
    }
  }

  lemma {:induction false} BelowTotal(a: JsString, b: JsString)
    ensures Below(a, b) || Below(b, a)
  {
    if a != [] && b != [] && a[0] == b[0] {
      BelowTotal(a[1..], b[1..]);
    }
  }

  /** `query` occurs in `text` starting at code unit `i`. */
  predicate OccursAt(text: JsString, query: JsString, i: int)
  {
    0 <= i && i + |query| <= |text| && text[i..i + |query|] == query
  }

  /** `text.includes(query)`: a case-sensitive, code-unit-exact substring test. */
  predicate Includes(text: JsString, query: JsString)
    ensures Includes(text, query) ==> |query| <= |text|
    ensures query == [] ==> Includes(text, query)
    decreases |text|
  {
    |query| <= |text| && (text[..|query|] == query || Includes(text[1..], query))
  }

  /** The scan in Includes finds exactly the positions where the query occurs. */
  lemma {:induction false} IncludesIffOccurs(text: JsString, query: JsString)
    ensures Includes(text, query) <==> exists i :: OccursAt(text, query, i)
    decreases |text|
  {
    if |query| <= |text| {
      if text[..|query|] == query {
        assert OccursAt(text, query, 0);
      } else {
        IncludesIffOccurs(text[1..], query);
        if Includes(text[1..], query) {
          var j :| OccursAt(text[1..], query, j);
          assert text[1..][j..j + |query|] == text[j + 1..j + 1 + |query|];
          assert OccursAt(text, query, j + 1);
        }
        if exists i :: OccursAt(text, query, i) {
          var i :| OccursAt(text, query, i);
          assert i != 0;
          assert text[1..][i - 1..i - 1 + |query|] == text[i..i + |query|];
          assert OccursAt(text[1..], query, i - 1);
        }
      }
    }
  }

  /** Searching for a single code unit is membership. */
  lemma {:induction false} IncludesUnit(text: JsString, u: CodeUnit)
    ensures Includes(text, [u]) <==> u in text
    decreases |text|
  {
    if text != [] {
      IncludesUnit(text[1..], u);
      assert u in text <==> text[0] == u || u in text[1..];
    }
  }

  /** `parts.join(sep)`. */
  function Join(parts: seq<JsString>, sep: JsString): JsString
  {
    if parts == [] then []
    else if |parts| == 1 then parts[0]
    else parts[0] + sep + Join(parts[1..], sep)
  }
}
