/** The few string operations that the cache code leans on. */
module Text {
  /** The white space and line terminators that `String.prototype.trim` strips (ECMA-262, section 22.1.3.32). */
  predicate IsSpace(c: char) {
    || '\t' <= c <= '\r' || c == ' ' || c == '\U{00A0}' || c == '\U{1680}' || '\U{2000}' <= c <= '\U{200A}'
    || c == '\U{2028}' || c == '\U{2029}' || c == '\U{202F}' || c == '\U{205F}' || c == '\U{3000}' || c == '\U{FEFF}'
  }

  predicate HasSpaceEnd(s: string) {
    s != "" && (IsSpace(s[0]) || IsSpace(s[|s| - 1]))
  }

  function Trim(s: string): (t: string)
    ensures !HasSpaceEnd(t) && |t| <= |s| && (|t| == |s| ==> t == s)
  {
    if !HasSpaceEnd(s) then s
    else if IsSpace(s[0]) then Trim(s[1..])
    else Trim(s[..|s| - 1])
  }

  /** Trimming leaves exactly the strings without space at either end as they are. */
  lemma TrimFixes(s: string)
    ensures Trim(s) == s <==> !HasSpaceEnd(s)
  {
  }

  ghost predicate AllSpace(s: string) {
    forall c | c in s :: IsSpace(c)
  }

  /** Only space at the ends goes. */
  lemma {:induction false} TrimTakesSpace(s: string) returns (before: string, after: string)
    ensures s == before + Trim(s) + after && AllSpace(before) && AllSpace(after)
  {
    if !HasSpaceEnd(s) {
      before, after := "", "";
    } else if IsSpace(s[0]) {
      before, after := TrimTakesSpace(s[1..]);
      before := [s[0]] + before;
    } else {
      before, after := TrimTakesSpace(s[..|s| - 1]);
      after := after + [s[|s| - 1]];
    }
  }

  /** `s.replace(/\\/g, '/')`. */
  function Slashed(s: string): (t: string)
    ensures |t| == |s|
  {
    seq(|s|, i requires 0 <= i < |s| => if s[i] == '\\' then '/' else s[i])
  }

  /** `parts.join(separator)`. */
  function Joined(parts: seq<string>, separator: string): string {
    if parts == [] then "" else if |parts| == 1 then parts[0] else parts[0] + separator + Joined(parts[1..], separator)
  }

  /** The segments between the slashes; at least one. */
  function Segments(s: string): (parts: seq<string>)
    ensures parts != []
  {
    if s == "" then [""]
    else
      var rest := Segments(s[1..]);
      if s[0] == '/' then [""] + rest else [[s[0]] + rest[0]] + rest[1..]
  }

  lemma {:induction false} JoinedSegments(s: string)
    ensures Joined(Segments(s), "/") == s
  {
    if s != "" {
      JoinedSegments(s[1..]);
      var rest := Segments(s[1..]);
      if s[0] == '/' {
        assert ([""] + rest)[1..] == rest;
        assert Joined([""] + rest, "/") == "" + "/" + Joined(rest, "/");
      } else {
        var parts := [[s[0]] + rest[0]] + rest[1..];
        assert parts[1..] == rest[1..];
        assert |rest| > 1 ==> Joined(rest, "/") == rest[0] + "/" + Joined(rest[1..], "/");
        assert Joined(parts, "/") == [s[0]] + Joined(rest, "/");
      }
      assert s == [s[0]] + s[1..];
    }
  }

  lemma {:induction false} SegmentsAfterName(name: string, rest: string)
    requires '/' !in name
    ensures Segments(name + "/" + rest) == [name] + Segments(rest)
  {
    var s := name + "/" + rest;
    if name == "" {
      assert s[1..] == rest;
    } else {
      assert s[1..] == name[1..] + "/" + rest;
      SegmentsAfterName(name[1..], rest);
      assert [name[0]] + name[1..] == name;
    }
  }

  predicate EndsWith(s: string, suffix: string) {
    |suffix| <= |s| && s[|s| - |suffix|..] == suffix
  }
}
