/** The two string operations the name filter uses: `toLowerCase` and
    `indexOf`. */
module Text {

  /** `toLowerCase` on one character, for the letters A to Z. */
  function LowerChar(c: char): char {
    if 'A' <= c <= 'Z' then (c as int + 32) as char else c
  }

  /** `s.toLowerCase()`, character by character. */
  function ToLower(s: string): string {
    seq(|s|, i requires 0 <= i < |s| => LowerChar(s[i]))
  }

  /** `needle` occurs in `hay` at position `i`. */
  predicate OccursAt(needle: string, hay: string, i: int) {
    0 <= i && i + |needle| <= |hay| && hay[i..i + |needle|] == needle
  }

  /** `needle` is a substring of `hay`. */
  ghost predicate IsSubstring(needle: string, hay: string) {
    exists i :: OccursAt(needle, hay, i)
  }

  /** `hay.indexOf(needle)`: the first position at which `needle` occurs,
      or -1 when it does not occur. */
  function IndexOf(hay: string, needle: string): int {
    IndexOfFrom(hay, needle, 0)
  }

  function IndexOfFrom(hay: string, needle: string, from: nat): int
    decreases |hay| - from
  {
    if from + |needle| > |hay| then -1
    else if hay[from..from + |needle|] == needle then from
    else IndexOfFrom(hay, needle, from + 1)
  }

  lemma {:induction false} IndexOfFromSpec(hay: string, needle: string, from: nat)
    ensures var r := IndexOfFrom(hay, needle, from);
      && (r == -1 <==> forall i :: from <= i ==> !OccursAt(needle, hay, i))
      && (r != -1 ==> from <= r && OccursAt(needle, hay, r)
                      && forall i :: from <= i < r ==> !OccursAt(needle, hay, i))
    decreases |hay| - from
  {
    if from + |needle| > |hay| {
    } else if hay[from..from + |needle|] == needle {
      assert OccursAt(needle, hay, from);
    } else {
      IndexOfFromSpec(hay, needle, from + 1);
    }
  }

  /** The result of `indexOf` is -1 exactly when `needle` is not a
      substring, and otherwise the first place where it occurs. */
  lemma IndexOfSpec(hay: string, needle: string)
    ensures IndexOf(hay, needle) != -1 <==> IsSubstring(needle, hay)
    ensures IndexOf(hay, needle) != -1 ==>
      OccursAt(needle, hay, IndexOf(hay, needle))
      && forall i :: 0 <= i < IndexOf(hay, needle) ==> !OccursAt(needle, hay, i)
  {
    IndexOfFromSpec(hay, needle, 0);
  }
}
