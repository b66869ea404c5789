/** String operations of ECMAScript that the modelled code leans on. */
module JsText {

  /** White space and line terminators, as String.prototype.trim takes them off. */
  predicate Whitespace(c: char) {
    || '\U{0009}' <= c <= '\U{000D}' || c == ' ' || c == '\U{00A0}' || c == '\U{1680}'
    || '\U{2000}' <= c <= '\U{200A}' || c in {'\U{2028}', '\U{2029}', '\U{202F}', '\U{205F}', '\U{3000}', '\U{FEFF}'}
  }

  predicate Blank(s: string) {
    forall i | 0 <= i < |s| :: Whitespace(s[i])
  }

  /** How many characters of white space a string starts with. */
  function Lead(s: string): (n: nat)
    ensures n <= |s| && (forall i | 0 <= i < n :: Whitespace(s[i])) && (n < |s| ==> !Whitespace(s[n]))
  {
    if s == [] || !Whitespace(s[0]) then 0 else 1 + Lead(s[1..])
  }

  /** The length without the white space at the end. */
  function Tail(s: string): (n: nat)
    ensures n <= |s| && (forall i | n <= i < |s| :: Whitespace(s[i])) && (n > 0 ==> !Whitespace(s[n - 1]))
  {
    if s == [] || !Whitespace(s[|s| - 1]) then |s| else Tail(s[..|s| - 1])
  }

  function Trim(s: string): (r: string)
    ensures r == [] <==> Blank(s)
  {
    if Lead(s) == |s| then [] else s[Lead(s)..Tail(s)]
  }

  /** The text from `i` to `j` has blank text on both sides. */
  predicate Core(s: string, i: nat, j: nat) {
    i <= j <= |s| && (forall k | 0 <= k < i :: Whitespace(s[k])) && forall k | j <= k < |s| :: Whitespace(s[k])
  }

  /** A trim leaves the one part that has blank text around it and no blank end of its own. */
  lemma CoreIsUnique(s: string, i: nat, j: nat)
    requires Core(s, i, j) && i < j && !Whitespace(s[i]) && !Whitespace(s[j - 1])
    ensures Trim(s) == s[i..j]
  {
    assert Lead(s) == i;
    assert Tail(s) == j;
  }

  /** s.split(sep) for a one-character separator. */
  function Split(s: string, sep: char): (r: seq<string>)
    ensures |r| >= 1 && forall p | p in r :: sep !in p
  {
    if s == [] then [[]]
    else
      var r := Split(s[1..], sep);
      if s[0] == sep then [[]] + r else [[s[0]] + r[0]] + r[1..]
  }

  function Join(parts: seq<string>, sep: char): string
    requires parts != []
  {
    if |parts| == 1 then parts[0] else parts[0] + [sep] + Join(parts[1..], sep)
  }

  /** Splitting is the way back from joining parts that do not hold the separator. */
  lemma {:induction false} SplitJoin(s: string, sep: char)
    ensures Join(Split(s, sep), sep) == s
  {
    if s != [] {
      SplitJoin(s[1..], sep);
      var r := Split(s[1..], sep);
      if s[0] == sep {
        assert ([[]] + r)[1..] == r;
      } else if |r| > 1 {
        assert Split(s, sep)[1..] == r[1..];
        assert [s[0]] + (r[0] + [sep] + Join(r[1..], sep)) == s;
      }
    }
  }
}
