/** Product records as the catalog endpoint returns them, the outcome of the
    one-shot fetch, and the two string operations the search callback uses:
    `toLowerCase` (folded to ASCII here) and `includes`. */
module Products {

  /** One record of the fetched JSON array. Prices are compared, never
      computed with, so an integer stands for the JSON number. */
  datatype Product = Product(id: int, title: string, price: int, category: string, image: string)

  /** How the `fetch(...).then(...).catch(...)` chain settles: with the parsed
      array, or with an error that is only logged. */
  datatype FetchOutcome = Fetched(data: seq<Product>) | FetchFailed

  predicate IsUpper(c: char) {
    'A' <= c <= 'Z'
  }

  function LowerChar(c: char): char {
    if IsUpper(c) then (c as int + 32) as char else c
  }

  /** `s.toLowerCase()`, restricted to the ASCII letters. */
  function Lower(s: string): (r: string)
    ensures |r| == |s|
    ensures forall i :: 0 <= i < |r| ==> !IsUpper(r[i])
    ensures forall i :: 0 <= i < |r| && !IsUpper(s[i]) ==> r[i] == s[i]
    ensures forall i :: 0 <= i < |r| && IsUpper(s[i]) ==> r[i] as int == s[i] as int + 32
  {
    seq(|s|, i requires 0 <= i < |s| => LowerChar(s[i]))
  }

  /** `part` sits in `text` starting at index `i`. */
  predicate OccursAt(text: string, part: string, i: int) {
    0 <= i && i + |part| <= |text| && text[i..i + |part|] == part
  }

  /** `text.includes(part)`, computed by trying each start position in turn. */
  function Includes(text: string, part: string): bool
    decreases |text|
  {
    if |text| < |part| then false
    else if text[..|part|] == part then true
    else Includes(text[1..], part)
  }

  /** `Includes` holds exactly when `part` occurs at some index of `text`. */
  lemma {:induction false} IncludesIffOccurs(text: string, part: string)
    ensures Includes(text, part) <==> exists i :: OccursAt(text, part, i)
    decreases |text|
  {
    if |text| < |part| {
    } else if text[..|part|] == part {
      assert OccursAt(text, part, 0);
    } else {
      IncludesIffOccurs(text[1..], part);
      if Includes(text, part) {
        var j :| OccursAt(text[1..], part, j);
        assert text[1..][j..j + |part|] == text[j + 1..j + 1 + |part|];
        assert OccursAt(text, part, j + 1);
      }
      if i :| OccursAt(text, part, i) {
        assert i != 0;
        assert text[1..][i - 1..i - 1 + |part|] == text[i..i + |part|];
        assert OccursAt(text[1..], part, i - 1);
      }
    }
  }

  /** Every string includes the empty string. */
  lemma IncludesEmpty(text: string)
    ensures Includes(text, "")
  {
  }
}
