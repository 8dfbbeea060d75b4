/** The JavaScript string operations the login page and the token middleware
    use: `startsWith`, `split(" ")`, the UTF-16 `length` and the
    regular-expression class `\s`; plus two auxiliary definitions, IndexOf
    (used to decide the e-mail pattern constructively and to find separators)
    and Join (used to state that Split loses nothing). A JavaScript string is
    modelled as a sequence of Unicode scalar values; where the UTF-16 encoding
    matters (only `length`) it is computed explicitly. */
module JsStrings {
  import opened Wrappers

  /** Position of the first occurrence of `c` in `s`, or `None` if it does not occur. */
  function IndexOf(s: string, c: char): (r: Option<nat>)
    ensures r.None? <==> c !in s
    ensures r.Some? ==> r.value < |s| && s[r.value] == c && c !in s[..r.value]
  {
    if |s| == 0 then None
    else if s[0] == c then Some(0)
    else
      match IndexOf(s[1..], c)
      case None => None
      case Some(i) =>
        assert s[..i + 1] == [s[0]] + s[1..][..i];
        Some(i + 1)
  }

  /** `s.startsWith(prefix)`. */
  predicate StartsWith(s: string, prefix: string)
  {
    |prefix| <= |s| && s[..|prefix|] == prefix
  }

  /** The fields with one separator between neighbours; the inverse of Split. */
  function Join(fields: seq<string>, sep: char): string
  {
    if |fields| == 0 then ""
    else if |fields| == 1 then fields[0]
    else fields[0] + [sep] + Join(fields[1..], sep)
  }

  /** `s.split(sep)` for a one-character separator: every occurrence of `sep`
      ends a field, so `""` gives `[""]` and two adjacent separators give an
      empty field between them. Split is the inverse of Join (see SplitOfJoin). */
  function Split(s: string, sep: char): (fields: seq<string>)
    ensures |fields| >= 1
    ensures forall k :: 0 <= k < |fields| ==> sep !in fields[k]
    ensures Join(fields, sep) == s
    decreases |s|
  {
    match IndexOf(s, sep)
    case None => [s]
    case Some(i) =>
      var rest := Split(s[i + 1..], sep);
      assert s == s[..i] + [sep] + s[i + 1..];
      [s[..i]] + rest
  }

  /** Splitting a join of separator-free fields gives the fields back. */
  lemma {:induction false} SplitOfJoin(fields: seq<string>, sep: char)
    requires |fields| >= 1
    requires forall k :: 0 <= k < |fields| ==> sep !in fields[k]
    ensures Split(Join(fields, sep), sep) == fields
    decreases |fields|
  {
    if |fields| > 1 {
      var s := Join(fields, sep);
      var f0 := fields[0];
      assert s == f0 + [sep] + Join(fields[1..], sep);
      assert s[..|f0|] == f0;
      assert sep !in s[..|f0|];
      assert s[|f0|] == sep;
      IndexOfFirst(s, sep, |f0|);
      assert s[|f0| + 1..] == Join(fields[1..], sep);
      SplitOfJoin(fields[1..], sep);
    } else {
      assert Join(fields, sep) == fields[0];
    }
  }

  /** The first occurrence is the one with no occurrence before it. */
  lemma IndexOfFirst(s: string, c: char, i: nat)
    requires i < |s| && s[i] == c && c !in s[..i]
    ensures IndexOf(s, c) == Some(i)
  {
  }

  /** Number of UTF-16 code units JavaScript's `length` reports for `s`:
      a scalar value above U+FFFF is stored as a surrogate pair. */
  function Utf16Length(s: string): (n: nat)
    ensures |s| <= n <= 2 * |s|
    ensures n == |s| <==> forall k :: 0 <= k < |s| ==> s[k] as int < 0x1_0000
  {
    if |s| == 0 then 0
    else (if s[0] as int < 0x1_0000 then 1 else 2) + Utf16Length(s[1..])
  }

  /** The characters the regular-expression class `\s` matches: the
      ECMAScript WhiteSpace and LineTerminator code points. */
  predicate IsJsSpace(c: char)
  {
    var u := c as int;
    || 0x09 <= u <= 0x0D                // tab, line feed, vertical tab, form feed, carriage return
    || u == 0x20 || u == 0xA0 || u == 0x1680
    || 0x2000 <= u <= 0x200A            // en quad .. hair space
    || u == 0x2028 || u == 0x2029       // line and paragraph separators
    || u == 0x202F || u == 0x205F || u == 0x3000
    || u == 0xFEFF                      // byte order mark
  }
}
