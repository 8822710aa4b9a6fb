/** The name shown for each committed URL in the list of completed files:
    the last path segment (or a numbered placeholder), URI-decoded, with one
    leading 36-character UUID-like prefix and its dash removed. */
module DisplayName {
  import opened Wrappers
  import Decimal

  /** `s.split('/').pop()`: the text after the last slash, or all of s. */
  function LastSegment(s: string): (r: string)
    ensures '/' !in r
    ensures |r| <= |s| && r == s[|s| - |r|..]
    ensures |r| < |s| ==> s[|s| - |r| - 1] == '/'
  {
    if s == [] then []
    else if s[|s| - 1] == '/' then []
    else
      var init := s[..|s| - 1];
      var r := LastSegment(init) + [s[|s| - 1]];
      var start := |s| - |r|;
      assert s[start..] == s[start..|s| - 1] + [s[|s| - 1]];
      assert s[start..|s| - 1] == init[start..];
      r
  }

  /** `url.split('/').pop() || `File ${index + 1}``: never empty. */
  function FileName(url: string, index: nat): (r: string)
    ensures r != ""
    ensures LastSegment(url) != "" ==> r == LastSegment(url)
    ensures LastSegment(url) == "" ==> r == "File " + Decimal.NatToString(index + 1)
  {
    var segment := LastSegment(url);
    if segment != "" then segment else "File " + Decimal.NatToString(index + 1)
  }

  /** A character of the class `[a-f0-9-]` under the `i` flag. */
  predicate IsUuidChar(c: char) {
    'a' <= c <= 'f' || 'A' <= c <= 'F' || '0' <= c <= '9' || c == '-'
  }

  /** s matches `/^[a-f0-9-]{36}-/i`: 36 class characters, then a dash. */
  predicate HasUuidPrefix(s: string) {
    |s| >= 37 && (forall k :: 0 <= k < 36 ==> IsUuidChar(s[k])) && s[36] == '-'
  }

  /** `name.replace(/^[a-f0-9-]{36}-/i, '')`: one match at most is replaced. */
  function StripUuidPrefix(name: string): (r: string)
    ensures |r| <= |name| && r == name[|name| - |r|..]
    ensures HasUuidPrefix(name) ==> |r| == |name| - 37
    ensures !HasUuidPrefix(name) ==> r == name
  {
    if HasUuidPrefix(name) then name[37..] else name
  }

  /** The displayed name of the URL at `index` in the committed value;
      `decode` stands for `decodeURIComponent`, `None` when it throws, which
      the field does not catch. */
  function Display(url: string, index: nat, decode: string -> Option<string>): (r: Option<string>)
    ensures r.Some? <==> decode(FileName(url, index)).Some?
    ensures r.Some? ==> r.value == StripUuidPrefix(decode(FileName(url, index)).value)
  {
    match decode(FileName(url, index))
    case None => None
    case Some(fileName) => Some(StripUuidPrefix(fileName))
  }

  /** The contract of LastSegment pins its result down: the text after the
      last slash of s, found at index i. */
  lemma LastSegmentAt(s: string, i: nat)
    requires i < |s| && s[i] == '/'
    requires forall k :: i < k < |s| ==> s[k] != '/'
    ensures LastSegment(s) == s[i + 1..]
  {
    var r := LastSegment(s);
    var start := |s| - |r|;
    forall k | start <= k < |s| ensures s[k] != '/' {
      assert s[k] == r[k - start];
    }
    assert start > i;
    assert s[start - 1] == '/';
  }

  /** Whatever precedes the last slash does not matter. */
  lemma LastSegmentAfterSlash(prefix: string, segment: string)
    requires '/' !in segment
    ensures LastSegment(prefix + "/" + segment) == segment
  {
    var s := prefix + "/" + segment;
    assert forall k :: |prefix| < k < |s| ==> s[k] == segment[k - |prefix| - 1];
    LastSegmentAt(s, |prefix|);
    assert s[|prefix| + 1..] == segment;
  }

  /** A name without any slash is its own last segment. */
  lemma LastSegmentNoSlash(name: string)
    requires '/' !in name
    ensures LastSegment(name) == name
  {
    var r := LastSegment(name);
    assert forall k :: 0 <= k < |name| ==> name[k] != '/';
  }

  /** Exactly one prefix is stripped, even when another follows it. */
  lemma StripsOnePrefix(prefix: string, rest: string)
    requires |prefix| == 36 && forall k :: 0 <= k < 36 ==> IsUuidChar(prefix[k])
    ensures StripUuidPrefix(prefix + "-" + rest) == rest
  {
    var name := prefix + "-" + rest;
    forall k | 0 <= k < 36 ensures IsUuidChar(name[k]) {
      assert name[k] == prefix[k];
    }
    assert name[36] == '-';
    assert HasUuidPrefix(name);
    assert name[37..] == rest;
  }

  /** A typical stored name: a UUID, a dash and the original file name. */
  lemma UuidNamedUrl()
    ensures StripUuidPrefix("0f8fad5b-d9cb-469f-a165-70867728950e-report.pdf") == "report.pdf"
    ensures FileName("https://cdn.example.com/uploads/", 2) == "File 3"
  {
    StripsOnePrefix("0f8fad5b-d9cb-469f-a165-70867728950e", "report.pdf");
    assert "0f8fad5b-d9cb-469f-a165-70867728950e" + "-" + "report.pdf"
      == "0f8fad5b-d9cb-469f-a165-70867728950e-report.pdf";
    assert Decimal.NatToString(3) == "3";
  }
}
