/**
 Portable paths as text: one character per UTF-8 byte, components separated by '/'.
 Splitting, byte order, the portable-path policy, and lexical resolution of link targets.
 */
module PortablePaths {
  import opened Prelude

  const MAX_PATH_BYTES := 4096
  const MAX_PATH_COMPONENT_BYTES := 255
  const MAX_PATH_DEPTH := 128

  // ---------- splitting and joining ----------

  /** The pieces of `s` between separators; there is always at least one. */
  function Split(s: string): (r: seq<string>)
    ensures |r| >= 1
    ensures forall k :: 0 <= k < |r| ==> '/' !in r[k]
  {
    if s == "" then [""]
    else if s[0] == '/' then [""] + Split(s[1..])
    else
      var rest := Split(s[1..]);
      [[s[0]] + rest[0]] + rest[1..]
  }

  function Join(parts: seq<string>): string {
    if |parts| == 0 then ""
    else if |parts| == 1 then parts[0]
    else parts[0] + "/" + Join(parts[1..])
  }

  lemma {:induction false} JoinSplit(s: string)
    ensures Join(Split(s)) == s
  {
    if s != "" {
      JoinSplit(s[1..]);
      var rest := Split(s[1..]);
      if s[0] == '/' {
        assert Split(s)[1..] == rest;
      } else {
        assert Split(s)[1..] == rest[1..];
        if |rest| > 1 {
          assert Join(Split(s)) == [s[0]] + rest[0] + "/" + Join(rest[1..]);
        }
        assert Join(Split(s)) == [s[0]] + Join(rest);
      }
    }
  }

  lemma {:induction false} SplitPrepend(head: string, s: string)
    requires '/' !in head
    ensures Split(head + s) == [head + Split(s)[0]] + Split(s)[1..]
  {
    if head == "" {
      assert head + s == s;
      assert "" + Split(s)[0] == Split(s)[0];
    } else {
      assert (head + s)[1..] == head[1..] + s;
      SplitPrepend(head[1..], s);
      assert [head[0]] + (head[1..] + Split(s)[0]) == head + Split(s)[0];
    }
  }

  lemma {:induction false} SplitJoin(parts: seq<string>)
    requires |parts| >= 1 && forall k :: 0 <= k < |parts| ==> '/' !in parts[k]
    ensures Split(Join(parts)) == parts
  {
    if |parts| == 1 {
      SplitPrepend(parts[0], "");
      assert parts[0] + "" == parts[0];
    } else {
      SplitJoin(parts[1..]);
      var rest := "/" + Join(parts[1..]);
      assert rest[1..] == Join(parts[1..]);
      SplitPrepend(parts[0], rest);
      assert parts[0] + rest == Join(parts);
      assert parts[0] + "" == parts[0];
    }
  }

  // ---------- byte order ----------

  /** Strictly before, comparing bytes. */
  predicate BytesBefore(a: string, b: string) {
    b != "" && (a == "" || a[0] < b[0] || (a[0] == b[0] && BytesBefore(a[1..], b[1..])))
  }

  lemma {:induction false} BytesTotal(a: string, b: string)
    ensures BytesBefore(a, b) || a == b || BytesBefore(b, a)
    ensures !(BytesBefore(a, b) && BytesBefore(b, a))
    ensures BytesBefore(a, b) ==> a != b
  {
    if a != "" && b != "" && a[0] == b[0] {
      BytesTotal(a[1..], b[1..]);
      assert a == [a[0]] + a[1..] && b == [b[0]] + b[1..];
    }
  }

  lemma {:induction false} BytesTransitive(a: string, b: string, c: string)
    requires BytesBefore(a, b) && BytesBefore(b, c)
    ensures BytesBefore(a, c)
  {
    if a != "" && a[0] == b[0] && b[0] == c[0] {
      BytesTransitive(a[1..], b[1..], c[1..]);
    }
  }

  // ---------- the portable-path policy ----------

  predicate AsciiLetter(c: char) { 'a' <= c <= 'z' || 'A' <= c <= 'Z' }

  function Lower(c: char): char { if 'A' <= c <= 'Z' then (c as int + 32) as char else c }

  function LowerAll(s: string): string {
    if s == "" then "" else [Lower(s[0])] + LowerAll(s[1..])
  }

  function Stem(s: string): string {
    if s == "" || s[0] == '.' then "" else [s[0]] + Stem(s[1..])
  }

  /** Names Windows keeps for devices; the superscript digits are their UTF-8 bytes. */
  predicate WindowsReserved(stem: string) {
    var s := LowerAll(stem);
    || s in ["con", "prn", "aux", "nul"]
    || (|s| == 4 && s[..3] in ["com", "lpt"] && '1' <= s[3] <= '9')
    || (|s| == 5 && s[..3] in ["com", "lpt"] &&
          s[3..] in [[0xc2 as char, 0xb9 as char], [0xc2 as char, 0xb2 as char], [0xc2 as char, 0xb3 as char]])
  }

  predicate ForbiddenByte(c: char) {
    c as int <= 0x1f || c in "<>:\"|?*"
  }

  predicate PortableComponent(s: string) {
    && s != "" && s != "." && s != ".."
    && |s| <= MAX_PATH_COMPONENT_BYTES
    && s[|s| - 1] != '.' && s[|s| - 1] != ' '
    && LowerAll(s) != ".folderbase"
    && (forall k :: 0 <= k < |s| ==> !ForbiddenByte(s[k]))
    && !WindowsReserved(Stem(s))
  }

  predicate DrivePrefix(s: string) {
    |s| >= 2 && AsciiLetter(s[0]) && s[1] == ':'
  }

  predicate IsPortablePath(s: string) {
    && s != "" && |s| <= MAX_PATH_BYTES
    && s[0] != '/' && s[|s| - 1] != '/'
    && '\\' !in s && '\0' !in s
    && !DrivePrefix(s)
    && |Split(s)| <= MAX_PATH_DEPTH
    && forall k :: 0 <= k < |Split(s)| ==> PortableComponent(Split(s)[k])
  }
}
