/** The value reconciler: how each event turns the current committed value
    (the host's ordered list of uploaded-file URLs) into the list proposed
    through `onChange`. A result of `None` means `onChange` is not called. */
module Reconciler {
  import opened Wrappers
  import opened JsValues
  import opened UploadResponses

  /** No URL occurs twice in the committed value. */
  predicate NoDuplicates(s: seq<string>) {
    forall i, j :: 0 <= i < j < |s| ==> s[i] != s[j]
  }

  /** r is what is left of s after deleting some of its elements, the rest
      kept in their original order. */
  predicate IsSubsequence(r: seq<string>, s: seq<string>)
    decreases |s|
  {
    r == [] ||
    (s != [] && ((r[0] == s[0] && IsSubsequence(r[1..], s[1..])) || IsSubsequence(r, s[1..])))
  }

  /** What the host holds after a proposal: the proposed list when `onChange`
      was called, its old value otherwise. */
  function Adopt(current: seq<string>, proposal: Option<seq<string>>): seq<string> {
    match proposal
    case None => current
    case Some(next) => next
  }

  /** `if (!current.includes(url)) onChange([...current, url])`. */
  function AppendIfAbsent(current: seq<string>, url: string): (r: Option<seq<string>>)
    ensures r.None? <==> url in current
    ensures r.Some? ==>
      |r.value| == |current| + 1 && r.value[..|current|] == current && r.value[|current|] == url
  {
    if url in current then None else Some(current + [url])
  }

  /** `s.filter(u => u !== v)` on a list of strings: a string is strictly
      equal to v only when v is that same string. */
  function FilterOut(s: seq<string>, v: JsVal): (r: seq<string>)
    ensures |r| <= |s|
    ensures forall x :: x in r <==> x in s && Str(x) != v
  {
    if s == [] then []
    else if Str(s[0]) == v then FilterOut(s[1..], v)
    else [s[0]] + FilterOut(s[1..], v)
  }

  /** The `upload-success` handler on the current value. */
  function OnUploadSuccess(current: seq<string>, response: UploadResponse): (r: Option<seq<string>>)
    ensures r.Some? <==> UploadedUrl(response).Some? && UploadedUrl(response).value !in current
    ensures r.Some? ==> r.value == current + [UploadedUrl(response).value]
  {
    match UploadedUrl(response)
    case None => None
    case Some(url) => AppendIfAbsent(current, url)
  }

  /** The `file-removed` handler on the current value: filter out the file's
      recorded url whenever it is truthy. */
  function OnFileRemoved(current: seq<string>, file: UppyFile): (r: Option<seq<string>>)
    ensures r.Some? <==> Truthy(RecordedUrl(file))
    ensures r.Some? ==> forall x :: x in r.value <==> x in current && Str(x) != RecordedUrl(file)
  {
    var url := RecordedUrl(file);
    if Truthy(url) then Some(FilterOut(current, url)) else None
  }

  /** The remove button of a completed file: `onChange(value.filter(u => u !== url))`
      on the rendered value; it always calls `onChange`. */
  function OnRemoveClick(value: seq<string>, url: string): (r: seq<string>)
    ensures url !in r
    ensures forall x :: x != url ==> multiset(r)[x] == multiset(value)[x]
  {
    FilterOutCounts(value, Str(url));
    FilterOut(value, Str(url))
  }

  // ---------------------------------------------------------------------------
  // Filtering

  lemma {:induction false} FilterOutIsSubsequence(s: seq<string>, v: JsVal)
    ensures IsSubsequence(FilterOut(s, v), s)
  {
    if s != [] {
      FilterOutIsSubsequence(s[1..], v);
      if Str(s[0]) != v {
        var r := FilterOut(s, v);
        assert r[0] == s[0] && r[1..] == FilterOut(s[1..], v);
      }
    }
  }

  /** The filter drops every occurrence of v and keeps every other element
      as many times as it occurs. */
  lemma {:induction false} FilterOutCounts(s: seq<string>, v: JsVal)
    ensures forall x :: multiset(FilterOut(s, v))[x] == if Str(x) == v then 0 else multiset(s)[x]
  {
    if s != [] {
      FilterOutCounts(s[1..], v);
      assert s == [s[0]] + s[1..];
      assert multiset(s) == multiset([s[0]]) + multiset(s[1..]);
    }
  }

  lemma {:induction false} FilterOutKeepsNoDuplicates(s: seq<string>, v: JsVal)
    requires NoDuplicates(s)
    ensures NoDuplicates(FilterOut(s, v))
  {
    if s != [] {
      assert NoDuplicates(s[1..]) by {
        forall i, j | 0 <= i < j < |s[1..]| ensures s[1..][i] != s[1..][j] {
          assert s[1..][i] == s[i + 1] && s[1..][j] == s[j + 1];
        }
      }
      FilterOutKeepsNoDuplicates(s[1..], v);
      if Str(s[0]) != v {
        var rest := FilterOut(s[1..], v);
        assert s[0] !in s[1..] by {
          forall k | 0 <= k < |s[1..]| ensures s[1..][k] != s[0] {
            assert s[1..][k] == s[k + 1];
          }
        }
        assert s[0] !in rest;
        var r := [s[0]] + rest;
        forall i, j | 0 <= i < j < |r| ensures r[i] != r[j] {
          if i == 0 {
            assert r[j] == rest[j - 1];
          } else {
            assert r[i] == rest[i - 1] && r[j] == rest[j - 1];
          }
        }
      }
    }
  }

  /** Filtering a value nothing in the list equals changes nothing. */
  lemma {:induction false} FilterOutAbsent(s: seq<string>, v: JsVal)
    requires forall x :: x in s ==> Str(x) != v
    ensures FilterOut(s, v) == s
  {
    if s != [] {
      FilterOutAbsent(s[1..], v);
      assert [s[0]] + s[1..] == s;
    }
  }

  /** A filter by a value that is not a string keeps every element. */
  lemma FilterOutNonString(s: seq<string>, v: JsVal)
    requires !v.Str?
    ensures FilterOut(s, v) == s
  {
    FilterOutAbsent(s, v);
  }

  lemma FilterOutIdempotent(s: seq<string>, v: JsVal)
    ensures FilterOut(FilterOut(s, v), v) == FilterOut(s, v)
  {
    FilterOutAbsent(FilterOut(s, v), v);
  }

  lemma {:induction false} FilterOutAppend(a: seq<string>, b: seq<string>, v: JsVal)
    ensures FilterOut(a + b, v) == FilterOut(a, v) + FilterOut(b, v)
  {
    if a == [] {
      assert a + b == b;
    } else {
      assert (a + b)[0] == a[0] && (a + b)[1..] == a[1..] + b;
      FilterOutAppend(a[1..], b, v);
    }
  }

  /** Filtering out a URL that occurs once deletes that one occurrence. */
  lemma FilterOutSingle(a: seq<string>, u: string, b: seq<string>)
    requires u !in a && u !in b
    ensures FilterOut(a + ([u] + b), Str(u)) == a + b
  {
    FilterOutAbsent(a, Str(u));
    FilterOutAbsent(b, Str(u));
    assert FilterOut([u], Str(u)) == [] by {
      assert [u][1..] == [];
    }
    FilterOutAppend([u], b, Str(u));
    FilterOutAppend(a, [u] + b, Str(u));
  }

  /** Removing a URL at index i of a duplicate-free list deletes exactly that
      index: other URLs keep their relative order. */
  lemma RemoveUniqueAt(s: seq<string>, i: nat)
    requires NoDuplicates(s) && i < |s|
    ensures FilterOut(s, Str(s[i])) == s[..i] + s[i + 1..]
  {
    var a, b := s[..i], s[i + 1..];
    assert s == a + ([s[i]] + b) by {
      assert s[i..] == [s[i]] + b;
      assert s == a + s[i..];
    }
    assert s[i] !in a by {
      forall k | 0 <= k < |a| ensures a[k] != s[i] {
        assert a[k] == s[k];
      }
    }
    assert s[i] !in b by {
      forall k | 0 <= k < |b| ensures b[k] != s[i] {
        assert b[k] == s[i + 1 + k];
      }
    }
    FilterOutSingle(a, s[i], b);
  }

  // ---------------------------------------------------------------------------
  // upload-success

  /** A proposal made by `upload-success` keeps a duplicate-free list duplicate-free. */
  lemma UploadSuccessKeepsNoDuplicates(current: seq<string>, response: UploadResponse)
    requires NoDuplicates(current)
    ensures NoDuplicates(Adopt(current, OnUploadSuccess(current, response)))
  {
  }

  /** Delivering the same success event again, once the host has adopted the
      first proposal, does not call `onChange`. */
  lemma UploadSuccessIdempotent(current: seq<string>, response: UploadResponse)
    ensures OnUploadSuccess(Adopt(current, OnUploadSuccess(current, response)), response).None?
  {
  }

  /** The committed value after a run of success events, the host adopting
      every proposal before the next event fires. */
  function Replay(current: seq<string>, responses: seq<UploadResponse>): seq<string>
    decreases |responses|
  {
    if responses == [] then current
    else Replay(Adopt(current, OnUploadSuccess(current, responses[0])), responses[1..])
  }

  /** The usable URLs of a run of responses, in the order the events fired. */
  function ExtractedUrls(responses: seq<UploadResponse>): seq<string>
    decreases |responses|
  {
    if responses == [] then []
    else
      match UploadedUrl(responses[0])
      case None => ExtractedUrls(responses[1..])
      case Some(u) => [u] + ExtractedUrls(responses[1..])
  }

  /** Uniqueness over a run: the result is duplicate-free, starts with the
      old value, and holds exactly the old URLs and the extracted ones. */
  lemma {:induction false} ReplayUnique(current: seq<string>, responses: seq<UploadResponse>)
    requires NoDuplicates(current)
    ensures var r := Replay(current, responses);
      NoDuplicates(r) && |current| <= |r| && r[..|current|] == current &&
      forall x :: x in r <==> x in current || x in ExtractedUrls(responses)
    decreases |responses|
  {
    if responses != [] {
      var next := Adopt(current, OnUploadSuccess(current, responses[0]));
      UploadSuccessKeepsNoDuplicates(current, responses[0]);
      ReplayUnique(next, responses[1..]);
      var r := Replay(current, responses);
      assert r == Replay(next, responses[1..]);
      assert next[..|current|] == current;
      assert r[..|current|] == r[..|next|][..|current|];
    }
  }

  /** Completion order: when the extracted URLs are new and distinct, the
      committed value ends as the old value followed by them, in the order
      the success events fired. */
  lemma {:induction false} ReplayInCompletionOrder(current: seq<string>, responses: seq<UploadResponse>)
    requires NoDuplicates(current + ExtractedUrls(responses))
    ensures Replay(current, responses) == current + ExtractedUrls(responses)
    decreases |responses|
  {
    if responses != [] {
      var rest := ExtractedUrls(responses[1..]);
      match UploadedUrl(responses[0])
      case None =>
        ReplayInCompletionOrder(current, responses[1..]);
      case Some(u) =>
        var all := current + ExtractedUrls(responses);
        assert all == (current + [u]) + rest;
        assert all[|current|] == u;
        assert u !in current by {
          forall k | 0 <= k < |current| ensures current[k] != u { assert all[k] == current[k]; }
        }
        ReplayInCompletionOrder(current + [u], responses[1..]);
    }
  }

  // ---------------------------------------------------------------------------
  // file-removed and the remove button

  /** `file-removed` proposes a subsequence of the current value with no
      occurrence of the recorded URL and every other URL, as often as before. */
  lemma FileRemovedFilters(current: seq<string>, file: UppyFile)
    requires Truthy(RecordedUrl(file))
    ensures var r := OnFileRemoved(current, file).value;
      IsSubsequence(r, current) &&
      (forall x :: multiset(r)[x] == if Str(x) == RecordedUrl(file) then 0 else multiset(current)[x])
  {
    FilterOutIsSubsequence(current, RecordedUrl(file));
    FilterOutCounts(current, RecordedUrl(file));
  }

  /** `file-removed` for a URL the list does not hold still calls `onChange`,
      with the list unchanged. */
  lemma FileRemovedAbsent(current: seq<string>, file: UppyFile, u: string)
    requires RecordedUrl(file) == Str(u) && u != "" && u !in current
    ensures OnFileRemoved(current, file) == Some(current)
  {
    FilterOutAbsent(current, Str(u));
  }

  /** A completed file whose body url is a non-empty string: removing it
      after its success was adopted gives back the list without that URL,
      which is the list from before the upload when the URL was new. */
  lemma SuccessThenRemove(current: seq<string>, response: UploadResponse, u: string)
    requires OptionalUrl(response.body) == Str(u) && u != ""
    ensures var next := Adopt(current, OnUploadSuccess(current, response));
      OnFileRemoved(next, UppyFile(Some(response))) == Some(FilterOut(current, Str(u))) &&
      (u !in current ==> OnFileRemoved(next, UppyFile(Some(response))) == Some(current))
  {
    UploadedUrlCases(response, u);
    assert UploadedUrl(response) == Some(u);
    var file := UppyFile(Some(response));
    assert RecordedUrl(file) == Str(u);
    var next := Adopt(current, OnUploadSuccess(current, response));
    if u !in current {
      assert next == current + [u];
      FilterOutAppend(current, [u], Str(u));
      assert FilterOut([u], Str(u)) == [] by { assert [u][1..] == []; }
      assert FilterOut(next, Str(u)) == FilterOut(current, Str(u));
      FilterOutAbsent(current, Str(u));
    } else {
      assert next == current;
    }
    assert OnFileRemoved(next, file) == Some(FilterOut(next, Str(u)));
  }

  /** The two handlers read different fields: a URL appended from the upload
      URL fallback (the body url being falsy) is not removed on
      `file-removed`, which then does not call `onChange` at all. */
  lemma RemovalMissesFallbackUrl(current: seq<string>, response: UploadResponse, u: string)
    requires !Truthy(OptionalUrl(response.body)) && response.uploadURL == Str(u) && u != ""
    ensures var next := Adopt(current, OnUploadSuccess(current, response));
      u in next && OnFileRemoved(next, UppyFile(Some(response))).None?
  {
    UploadedUrlCases(response, u);
  }

  /** The remove button proposes a subsequence of the rendered value. */
  lemma RemoveClickIsSubsequence(value: seq<string>, url: string)
    ensures IsSubsequence(OnRemoveClick(value, url), value)
  {
    FilterOutIsSubsequence(value, Str(url));
  }

  /** On a duplicate-free value the remove button deletes just the clicked
      entry and keeps the value duplicate-free. */
  lemma RemoveClickAt(value: seq<string>, i: nat)
    requires NoDuplicates(value) && i < |value|
    ensures OnRemoveClick(value, value[i]) == value[..i] + value[i + 1..]
    ensures NoDuplicates(OnRemoveClick(value, value[i]))
  {
    RemoveUniqueAt(value, i);
    FilterOutKeepsNoDuplicates(value, Str(value[i]));
  }
}
