/** The customer tag string handled by pages/api/update-metafield.ts: read as a
    comma-separated string, split and trimmed into a list, reconciled with the
    `under30` decision, and written back joined with ", ". */
module Tags {
  import opened Js

  const Under30 := "under30"

  // ---------------------------------------------------------------------
  // String.prototype.trim

  /** The characters JavaScript's `trim` removes: WhiteSpace and LineTerminator. */
  predicate IsWhitespace(c: char) {
    var n := c as int;
    n == 0x09 || n == 0x0A || n == 0x0B || n == 0x0C || n == 0x0D || n == 0x20
    || n == 0xA0 || n == 0x1680 || (0x2000 <= n <= 0x200A)
    || n == 0x2028 || n == 0x2029 || n == 0x202F || n == 0x205F
    || n == 0x3000 || n == 0xFEFF
  }

  predicate AllWhitespace(s: string) {
    forall i :: 0 <= i < |s| ==> IsWhitespace(s[i])
  }

  /** Neither starts nor ends with whitespace. */
  predicate IsTrimmed(s: string) {
    s == [] || (!IsWhitespace(s[0]) && !IsWhitespace(s[|s| - 1]))
  }

  /** How many whitespace characters `s` starts with. */
  function LeadingWhitespace(s: string): (k: nat)
    ensures k <= |s|
    ensures forall i :: 0 <= i < k ==> IsWhitespace(s[i])
    ensures k < |s| ==> !IsWhitespace(s[k])
  {
    if |s| > 0 && IsWhitespace(s[0]) then 1 + LeadingWhitespace(s[1..]) else 0
  }

  /** How many whitespace characters `s` ends with. */
  function TrailingWhitespace(s: string): (k: nat)
    ensures k <= |s|
    ensures forall i :: |s| - k <= i < |s| ==> IsWhitespace(s[i])
    ensures k < |s| ==> !IsWhitespace(s[|s| - 1 - k])
  {
    if |s| > 0 && IsWhitespace(s[|s| - 1]) then 1 + TrailingWhitespace(s[..|s| - 1]) else 0
  }

  /** `s.trim()`: leading whitespace cut off first, then trailing whitespace. */
  function Trim(s: string): (r: string)
    ensures IsTrimmed(r)
    ensures |r| <= |s|
  {
    var t := s[LeadingWhitespace(s)..];
    t[..|t| - TrailingWhitespace(t)]
  }

  /** Trimming only removes characters. */
  lemma TrimRemovesOnly(s: string, c: char)
    requires c !in s
    ensures c !in Trim(s)
  {
  }

  /** Trimming strips exactly the surrounding whitespace: a trimmed string
      padded with whitespace on either side trims back to itself. */
  lemma TrimPadded(w1: string, t: string, w2: string)
    requires AllWhitespace(w1) && AllWhitespace(w2)
    requires IsTrimmed(t)
    ensures Trim(w1 + t + w2) == t
  {
    var s := w1 + t + w2;
    var lead := LeadingWhitespace(s);
    if t == [] {
      assert forall i :: 0 <= i < |s| ==> IsWhitespace(s[i]);
      assert lead == |s|;
    } else {
      assert s[|w1|] == t[0];
      assert lead == |w1|;
      var u := s[lead..];
      assert u == t + w2;
      var trail := TrailingWhitespace(u);
      assert u[|u| - 1 - |w2|] == t[|t| - 1];
      assert trail == |w2|;
      assert u[..|u| - trail] == t;
    }
  }

  // ---------------------------------------------------------------------
  // String.prototype.split(sep) with a one-character separator, Array.prototype.join

  /** `parts.join(sep)` */
  function Join(parts: seq<string>, sep: string): string {
    if |parts| == 0 then ""
    else if |parts| == 1 then parts[0]
    else parts[0] + sep + Join(parts[1..], sep)
  }

  function CountChar(s: string, c: char): nat {
    if s == [] then 0 else (if s[0] == c then 1 else 0) + CountChar(s[1..], c)
  }

  /** `s.split(sep)`: one more piece than there are separators, no piece holds
      the separator, and joining the pieces back gives `s`. */
  function Split(s: string, sep: char): (parts: seq<string>)
    ensures |parts| == CountChar(s, sep) + 1
    ensures forall i :: 0 <= i < |parts| ==> sep !in parts[i]
    ensures Join(parts, [sep]) == s
    decreases |s|
  {
    if |s| == 0 then [""]
    else
      var rest := Split(s[1..], sep);
      if s[0] == sep then
        assert Join([""] + rest, [sep]) == [sep] + Join(rest, [sep]) by {
          assert ([""] + rest)[1..] == rest;
        }
        [""] + rest
      else
        var parts := [[s[0]] + rest[0]] + rest[1..];
        assert Join(parts, [sep]) == [s[0]] + Join(rest, [sep]) by {
          assert parts[1..] == rest[1..];
        }
        parts
  }

  lemma SplitNoSeparator(a: string, sep: char)
    requires sep !in a
    ensures Split(a, sep) == [a]
  {
  }

  lemma {:induction false} SplitAfterPiece(a: string, rest: string, sep: char)
    requires sep !in a
    ensures Split(a + [sep] + rest, sep) == [a] + Split(rest, sep)
    decreases |a|
  {
    if a == [] {
      assert a + [sep] + rest == [sep] + rest;
      assert ([sep] + rest)[1..] == rest;
    } else {
      assert (a + [sep] + rest)[1..] == a[1..] + [sep] + rest;
      SplitAfterPiece(a[1..], rest, sep);
      assert [a[0]] + a[1..] == a;
    }
  }

  /** Split is the inverse of Join for separator-free pieces. */
  lemma {:induction false} SplitJoin(parts: seq<string>, sep: char)
    requires |parts| >= 1
    requires forall i :: 0 <= i < |parts| ==> sep !in parts[i]
    ensures Split(Join(parts, [sep]), sep) == parts
    decreases |parts|
  {
    if |parts| == 1 {
      SplitNoSeparator(parts[0], sep);
    } else {
      SplitJoin(parts[1..], sep);
      SplitAfterPiece(parts[0], Join(parts[1..], [sep]), sep);
      assert [parts[0]] + parts[1..] == parts;
    }
  }

  // ---------------------------------------------------------------------
  // Reading and writing the tag string

  /** Each piece trimmed, in order: `.map(t => t.trim())`. */
  function TrimAll(parts: seq<string>): (r: seq<string>)
    ensures |r| == |parts|
    ensures forall i :: 0 <= i < |r| ==> r[i] == Trim(parts[i])
  {
    seq(|parts|, i requires 0 <= i < |parts| => Trim(parts[i]))
  }

  /** `customer?.tags ? customer.tags.split(',').map(t => t.trim()) : []`.
      An absent or empty tag string gives no tags; otherwise there is one tag
      per comma-separated piece, each trimmed and free of commas. */
  function ParseTags(raw: Option<string>): (tags: seq<string>)
    ensures raw.None? || raw == Some("") ==> tags == []
    ensures raw.Some? && raw.value != "" ==> |tags| == CountChar(raw.value, ',') + 1
    ensures forall i :: 0 <= i < |tags| ==> IsTrimmed(tags[i]) && ',' !in tags[i]
    ensures raw.Some? && raw.value != "" ==>
      exists pieces: seq<string> :: |pieces| == |tags| && Join(pieces, [',']) == raw.value
        && forall i :: 0 <= i < |pieces| ==> ',' !in pieces[i] && tags[i] == Trim(pieces[i])
  {
    if raw.None? || raw.value == "" then []
    else
      var parts := Split(raw.value, ',');
      var tags := TrimAll(parts);
      assert forall i :: 0 <= i < |tags| ==> ',' !in tags[i] by {
        forall i | 0 <= i < |tags| ensures ',' !in tags[i] {
          TrimRemovesOnly(parts[i], ',');
        }
      }
      tags
  }

  /** `tags.join(', ')`, the string written back to the customer record: the
      `,`-join of the tags with a space put before every tag but the first. */
  function JoinTags(tags: seq<string>): (r: string)
    ensures tags == [] ==> r == ""
    ensures tags != [] ==> r == Join(PadAfterFirst(tags), ",")
  {
    if tags == [] then ""
    else
      JoinCommaSpace(tags);
      Join(tags, ", ")
  }

  /** Every piece but the first with the space that ", " puts before it. */
  function PadAfterFirst(tags: seq<string>): (r: seq<string>)
    requires |tags| >= 1
    ensures |r| == |tags| && r[0] == tags[0]
    ensures forall i :: 1 <= i < |r| ==> r[i] == " " + tags[i]
  {
    [tags[0]] + seq(|tags| - 1, i requires 0 <= i < |tags| - 1 => " " + tags[i + 1])
  }

  lemma {:induction false} JoinCommaSpace(tags: seq<string>)
    requires |tags| >= 1
    ensures Join(tags, ", ") == Join(PadAfterFirst(tags), ",")
    decreases |tags|
  {
    if |tags| > 1 {
      var rest := tags[1..];
      JoinCommaSpace(rest);
      var p := PadAfterFirst(tags);
      var q := PadAfterFirst(rest);
      // p is tags[0], then " " + rest[0], then the padded tail of rest
      assert p[1..] == [" " + rest[0]] + q[1..];
      if |rest| == 1 {
        assert Join(p, ",") == tags[0] + "," + (" " + rest[0]);
      } else {
        assert ([" " + rest[0]] + q[1..])[1..] == q[1..];
        assert Join(p[1..], ",") == " " + rest[0] + "," + Join(q[1..], ",");
        assert Join(q, ",") == rest[0] + "," + Join(q[1..], ",");
      }
    }
  }

  lemma PaddedPiecesHaveNoComma(tags: seq<string>)
    requires |tags| >= 1
    requires forall i :: 0 <= i < |tags| ==> ',' !in tags[i]
    ensures forall i :: 0 <= i < |tags| ==> ',' !in PadAfterFirst(tags)[i]
  {
  }

  lemma TrimAfterSpace(t: string)
    requires IsTrimmed(t)
    ensures Trim(t) == t && Trim(" " + t) == t
  {
  }

  lemma TrimPaddedPieces(tags: seq<string>)
    requires |tags| >= 1
    requires forall i :: 0 <= i < |tags| ==> IsTrimmed(tags[i])
    ensures TrimAll(PadAfterFirst(tags)) == tags
  {
    var p := PadAfterFirst(tags);
    var r := TrimAll(p);
    forall i | 0 <= i < |tags| ensures r[i] == tags[i] {
      TrimAfterSpace(tags[i]);
    }
  }

  /** Writing a tag list and reading it back gives the same list, for tags
      without commas or surrounding whitespace (a lone empty tag is written as
      the empty string and reads back as no tags). */
  lemma JoinThenParse(tags: seq<string>)
    requires WellFormedTags(tags)
    requires tags != [""]
    ensures ParseTags(Some(JoinTags(tags))) == tags
  {
    if tags != [] {
      var p := PadAfterFirst(tags);
      JoinCommaSpace(tags);
      PaddedPiecesHaveNoComma(tags);
      SplitJoin(p, ',');
      assert JoinTags(tags) != "" by {
        if |tags| > 1 {
          assert |JoinTags(tags)| >= 2;
        }
      }
      TrimPaddedPieces(tags);
    }
  }

  // ---------------------------------------------------------------------
  // Reconciling the under30 tag

  predicate NoDuplicates(s: seq<string>) {
    forall i, j :: 0 <= i < j < |s| ==> s[i] != s[j]
  }

  /** `a` is `b` with some elements left out, the rest in their original order. */
  predicate IsSubsequence(a: seq<string>, b: seq<string>) {
    a == []
    || (b != [] && ((a[0] == b[0] && IsSubsequence(a[1..], b[1..])) || IsSubsequence(a, b[1..])))
  }

  /** `tags.filter(t => t !== x)`: every `x` gone, every other tag kept as many
      times as before and in the same order. */
  function RemoveAll(tags: seq<string>, x: string): (r: seq<string>)
    ensures x !in r
    ensures forall t :: t in r <==> t in tags && t != x
    ensures multiset(r) == multiset(tags)[x := 0]
    ensures IsSubsequence(r, tags)
    ensures NoDuplicates(tags) ==> NoDuplicates(r)
  {
    if tags == [] then []
    else
      var rest := RemoveAll(tags[1..], x);
      assert tags == [tags[0]] + tags[1..];
      if tags[0] == x then
        rest
      else
        var r := [tags[0]] + rest;
        assert r[1..] == rest;
        assert NoDuplicates(tags) ==> NoDuplicates(r) by {
          if NoDuplicates(tags) {
            assert tags[0] !in tags[1..];
            assert tags[0] !in rest;
          }
        }
        r
  }

  /** The tag list after the handler's `push`/`filter` step. With an under-30
      birth date, `under30` is present afterwards and every earlier tag keeps
      its position, `under30` being appended only when it was absent. Without
      one, every `under30` is gone and the other tags stay in order. Either way
      no tag other than `under30` gains or loses an occurrence, and a list
      without duplicates stays without duplicates. */
  function Reconcile(tags: seq<string>, hasUnder30: bool): (r: seq<string>)
    ensures hasUnder30 ==> Under30 in r
    ensures hasUnder30 ==> |tags| <= |r| <= |tags| + 1 && r[..|tags|] == tags
    ensures hasUnder30 ==> (|r| == |tags| + 1 <==> Under30 !in tags)
    ensures !hasUnder30 ==> Under30 !in r && IsSubsequence(r, tags)
    ensures forall t :: t in r <==> (t in tags && t != Under30) || (t == Under30 && hasUnder30)
    ensures multiset(r)[Under30 := 0] == multiset(tags)[Under30 := 0]
    ensures NoDuplicates(tags) ==> NoDuplicates(r)
  {
    if hasUnder30 then
      if Under30 in tags then tags
      else
        var r := tags + [Under30];
        assert r[..|tags|] == tags;
        assert multiset(r) == multiset(tags) + multiset{Under30};
        r
    else
      RemoveAll(tags, Under30)
  }

  lemma {:induction false} RemoveAllAbsent(tags: seq<string>, x: string)
    requires x !in tags
    ensures RemoveAll(tags, x) == tags
  {
    if tags != [] {
      RemoveAllAbsent(tags[1..], x);
      assert tags == [tags[0]] + tags[1..];
    }
  }

  /** Reconciling twice with the same decision changes nothing the second time. */
  lemma ReconcileIdempotent(tags: seq<string>, hasUnder30: bool)
    ensures Reconcile(Reconcile(tags, hasUnder30), hasUnder30) == Reconcile(tags, hasUnder30)
  {
    if !hasUnder30 {
      RemoveAllAbsent(Reconcile(tags, false), Under30);
    }
  }

  /** The tag string written back by the handler. */
  function TagsAfter(current: Option<string>, hasUnder30: bool): string {
    JoinTags(Reconcile(ParseTags(current), hasUnder30))
  }

  /** Tags that can be written and read back unchanged. */
  predicate WellFormedTags(tags: seq<string>) {
    forall i :: 0 <= i < |tags| ==> ',' !in tags[i] && IsTrimmed(tags[i])
  }

  lemma ReconcileKeepsWellFormed(tags: seq<string>, hasUnder30: bool)
    requires WellFormedTags(tags)
    ensures WellFormedTags(Reconcile(tags, hasUnder30))
  {
    var r := Reconcile(tags, hasUnder30);
    forall i | 0 <= i < |r| ensures ',' !in r[i] && IsTrimmed(r[i]) {
      assert r[i] in r;
      if r[i] != Under30 {
        var j :| 0 <= j < |tags| && tags[j] == r[i];
      }
    }
  }

  /** Read-modify-write of the tag string is idempotent: running it again on
      the string it wrote, with the same decision, writes the same string. */
  lemma TagWriteIdempotent(current: Option<string>, hasUnder30: bool)
    ensures TagsAfter(Some(TagsAfter(current, hasUnder30)), hasUnder30) == TagsAfter(current, hasUnder30)
  {
    var r := Reconcile(ParseTags(current), hasUnder30);
    ReconcileKeepsWellFormed(ParseTags(current), hasUnder30);
    if r == [""] {
      assert JoinTags(r) == "";
    } else {
      JoinThenParse(r);
      ReconcileIdempotent(ParseTags(current), hasUnder30);
    }
  }
}
