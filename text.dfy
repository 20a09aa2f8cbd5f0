/**
 * String primitives the content search is built from: JavaScript's
 * `toLowerCase` (restricted to ASCII), `String.prototype.includes` and
 * `Array.prototype.join`.
 */
module Text {

  /** Lower-cases one character: 'A'..'Z' map to 'a'..'z', every other character is kept. */
  function LowerChar(c: char): char
  {
    if 'A' <= c <= 'Z' then (c as int + 32) as char else c
  }

  /** `s.toLowerCase()`, character by character. */
  function Lower(s: string): (r: string)
    ensures |r| == |s|
    ensures forall i :: 0 <= i < |s| ==> r[i] == LowerChar(s[i])
  {
    if s == [] then [] else [LowerChar(s[0])] + Lower(s[1..])
  }

  lemma LowerCharIdempotent(c: char)
    ensures LowerChar(LowerChar(c)) == LowerChar(c)
  {
  }

  /** Lower-casing distributes over concatenation. */
  lemma LowerAppend(a: string, b: string)
    ensures Lower(a + b) == Lower(a) + Lower(b)
  {
    forall i | 0 <= i < |a + b|
      ensures Lower(a + b)[i] == (Lower(a) + Lower(b))[i]
    {
      if i < |a| {
        assert (a + b)[i] == a[i];
      } else {
        assert (a + b)[i] == b[i - |a|];
      }
    }
  }

  /** Lower-casing twice is lower-casing once. */
  lemma {:induction false} LowerIdempotent(s: string)
    ensures Lower(Lower(s)) == Lower(s)
  {
    forall i | 0 <= i < |s|
      ensures Lower(Lower(s))[i] == Lower(s)[i]
    {
      LowerCharIdempotent(s[i]);
    }
  }

  /** A character with no ASCII capital form is absent from a lower-cased string when it and its capital are absent from the original. */
  lemma LowerAbsent(s: string, c: char)
    requires 'a' <= c <= 'z'
    requires c !in s && (c as int - 32) as char !in s
    ensures c !in Lower(s)
  {
    forall i | 0 <= i < |s|
      ensures Lower(s)[i] != c
    {
      assert s[i] != c && s[i] != (c as int - 32) as char;
    }
  }

  /** `needle` occurs in `hay` starting at offset `k`. */
  predicate OccursAt(hay: string, needle: string, k: int)
  {
    0 <= k && k + |needle| <= |hay| && hay[k..k + |needle|] == needle
  }

  /** `hay.includes(needle)`: try offset 0, then search the rest. */
  predicate Contains(hay: string, needle: string)
    decreases |hay|
  {
    needle <= hay || (hay != [] && Contains(hay[1..], needle))
  }

  /** The search agrees with the definition by offsets, in both directions. */
  lemma {:induction false} ContainsIffOccurs(hay: string, needle: string)
    ensures Contains(hay, needle) <==> exists k :: OccursAt(hay, needle, k)
  {
    if needle <= hay {
      assert OccursAt(hay, needle, 0);
    } else if hay == [] {
    } else {
      ContainsIffOccurs(hay[1..], needle);
      if Contains(hay[1..], needle) {
        var k :| OccursAt(hay[1..], needle, k);
        assert hay[k + 1..k + 1 + |needle|] == hay[1..][k..k + |needle|];
        assert OccursAt(hay, needle, k + 1);
      }
      if exists k :: OccursAt(hay, needle, k) {
        var k :| OccursAt(hay, needle, k);
        if k != 0 {
          assert hay[1..][k - 1..k - 1 + |needle|] == hay[k..k + |needle|];
          assert OccursAt(hay[1..], needle, k - 1);
        }
      }
    }
  }

  /** The empty string is found in every string. */
  lemma ContainsEmpty(hay: string)
    ensures Contains(hay, "")
  {
  }

  /** Every infix of a string is found in it. */
  lemma ContainsInfix(a: string, needle: string, b: string)
    ensures Contains(a + needle + b, needle)
  {
    var hay := a + needle + b;
    assert hay[|a|..|a| + |needle|] == needle;
    assert OccursAt(hay, needle, |a|);
    ContainsIffOccurs(hay, needle);
  }

  /** Whatever is found in `hay` is still found once text is added around it. */
  lemma ContainsWiden(a: string, hay: string, b: string, needle: string)
    requires Contains(hay, needle)
    ensures Contains(a + hay + b, needle)
  {
    ContainsIffOccurs(hay, needle);
    var k :| OccursAt(hay, needle, k);
    var big := a + hay + b;
    assert big[|a| + k..|a| + k + |needle|] == hay[k..k + |needle|];
    assert OccursAt(big, needle, |a| + k);
    ContainsIffOccurs(big, needle);
  }

  /** What is found in `x` is found in `x + y`. */
  lemma ContainsInLeft(x: string, y: string, needle: string)
    requires Contains(x, needle)
    ensures Contains(x + y, needle)
  {
    ContainsWiden([], x, y, needle);
    assert [] + x + y == x + y;
  }

  /** What is found in `y` is found in `x + y`. */
  lemma ContainsInRight(x: string, y: string, needle: string)
    requires Contains(y, needle)
    ensures Contains(x + y, needle)
  {
    ContainsWiden(x, y, [], needle);
    assert x + y + [] == x + y;
  }

  /** A fragment of a fragment is a fragment. */
  lemma ContainsTransitive(a: string, b: string, c: string)
    requires Contains(a, b) && Contains(b, c)
    ensures Contains(a, c)
  {
    ContainsIffOccurs(a, b);
    var k :| OccursAt(a, b, k);
    assert a == a[..k] + b + a[k + |b|..];
    ContainsWiden(a[..k], b, a[k + |b|..], c);
  }

  /** A match survives lower-casing both sides. */
  lemma ContainsLower(hay: string, needle: string)
    requires Contains(hay, needle)
    ensures Contains(Lower(hay), Lower(needle))
  {
    ContainsIffOccurs(hay, needle);
    var k :| OccursAt(hay, needle, k);
    var lh, ln := Lower(hay), Lower(needle);
    assert lh[k..k + |ln|] == ln;
    assert OccursAt(lh, ln, k);
    ContainsIffOccurs(lh, ln);
  }

  /** A needle holding a character that the haystack lacks is not found. */
  lemma AbsentCharNotContained(hay: string, needle: string, c: char)
    requires c in needle && c !in hay
    ensures !Contains(hay, needle)
  {
    ContainsIffOccurs(hay, needle);
    var j :| 0 <= j < |needle| && needle[j] == c;
    forall k
      ensures !OccursAt(hay, needle, k)
    {
      if 0 <= k && k + |needle| <= |hay| {
        assert hay[k..k + |needle|][j] == hay[k + j] != c;
      }
    }
  }

  /** `parts.join(sep)`: the parts with `sep` between neighbours; no parts give "". */
  function Join(parts: seq<string>, sep: string): string
  {
    if parts == [] then ""
    else if |parts| == 1 then parts[0]
    else parts[0] + sep + Join(parts[1..], sep)
  }

  /** Every part can be found in the joined string. */
  lemma {:induction false} JoinContainsPart(parts: seq<string>, sep: string, i: nat)
    requires i < |parts|
    ensures Contains(Join(parts, sep), parts[i])
  {
    if |parts| == 1 {
      ContainsInfix("", parts[0], "");
      assert "" + parts[0] + "" == parts[0];
    } else if i == 0 {
      ContainsInfix("", parts[0], sep + Join(parts[1..], sep));
      assert "" + parts[0] + (sep + Join(parts[1..], sep)) == Join(parts, sep);
    } else {
      JoinContainsPart(parts[1..], sep, i - 1);
      ContainsWiden(parts[0] + sep, Join(parts[1..], sep), "", parts[i]);
      assert parts[0] + sep + Join(parts[1..], sep) + "" == Join(parts, sep);
    }
  }

  /** A character found in neither the parts nor the separator is not in the joined string. */
  lemma {:induction false} JoinAbsent(parts: seq<string>, sep: string, c: char)
    requires c !in sep && forall i :: 0 <= i < |parts| ==> c !in parts[i]
    ensures c !in Join(parts, sep)
  {
    if |parts| > 1 {
      JoinAbsent(parts[1..], sep, c);
    }
  }
}
