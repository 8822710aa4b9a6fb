/** The mutable cells of one mounted field. The Uppy event handlers are
    registered once, when the instance is created, and read the committed
    value and the change callback through `valueRef` and `onChangeRef`,
    which the host's renders overwrite; the handlers never write them. */
module FieldSession {
  import opened Wrappers
  import opened UploadResponses
  import opened Reconciler

  /** The identity of an `onChange` callback supplied by the host. */
  type CallbackId = nat

  /** One invocation of an `onChange` callback with a proposed list. */
  datatype Call = Call(callback: CallbackId, value: seq<string>)

  /** The `value` prop after destructuring: an absent value defaults to `[]`. */
  function ValueProp(value: Option<seq<string>>): (r: seq<string>)
    ensures value.None? ==> r == []
    ensures value.Some? ==> r == value.value
  {
    match value
    case None => []
    case Some(v) => v
  }

  /** The `onChange` calls a handler makes for its proposal: none when the
      proposal is `None`. */
  function CallsFor(callback: CallbackId, proposal: Option<seq<string>>): seq<Call> {
    match proposal
    case None => []
    case Some(v) => [Call(callback, v)]
  }

  class FieldRefs {
    /** `valueRef.current`: the most recent committed value from the host. */
    var valueRef: seq<string>
    /** `onChangeRef.current`: the most recent change callback from the host. */
    var onChangeRef: CallbackId
    /** Every `onChange` invocation so far, oldest first. */
    var calls: seq<Call>

    /** `useRef(value)` and `useRef(onChange)` on the first render. */
    constructor (value: Option<seq<string>>, onChange: CallbackId)
      ensures valueRef == ValueProp(value) && onChangeRef == onChange && calls == []
    {
      valueRef := ValueProp(value);
      onChangeRef := onChange;
      calls := [];
    }

    /** The effect that runs after a render with a new `value`. */
    method HostSetValue(value: Option<seq<string>>)
      modifies this`valueRef
      ensures valueRef == ValueProp(value)
      ensures onChangeRef == old(onChangeRef) && calls == old(calls)
    {
      valueRef := ValueProp(value);
    }

    /** The effect that runs after a render with a new `onChange`. */
    method HostSetOnChange(onChange: CallbackId)
      modifies this`onChangeRef
      ensures onChangeRef == onChange
      ensures valueRef == old(valueRef) && calls == old(calls)
    {
      onChangeRef := onChange;
    }

    /** The `upload-success` handler: proposes from the latest host value to
        the latest callback, and leaves both cells as they were. */
    method UploadSuccess(response: UploadResponse) returns (proposal: Option<seq<string>>)
      modifies this`calls
      ensures proposal == OnUploadSuccess(valueRef, response)
      ensures valueRef == old(valueRef) && onChangeRef == old(onChangeRef)
      ensures calls == old(calls) + CallsFor(onChangeRef, proposal)
    {
      var currentValue := valueRef;
      proposal := OnUploadSuccess(currentValue, response);
      calls := calls + CallsFor(onChangeRef, proposal);
    }

    /** The `file-removed` handler, reading the same cells. */
    method FileRemoved(file: UppyFile) returns (proposal: Option<seq<string>>)
      modifies this`calls
      ensures proposal == OnFileRemoved(valueRef, file)
      ensures valueRef == old(valueRef) && onChangeRef == old(onChangeRef)
      ensures calls == old(calls) + CallsFor(onChangeRef, proposal)
    {
      var currentValue := valueRef;
      proposal := OnFileRemoved(currentValue, file);
      calls := calls + CallsFor(onChangeRef, proposal);
    }

    /** The remove button of a completed file. Its closure belongs to a
        render: it reads that render's `value` and `onChange` props, not the
        cells, and it always calls `onChange`. */
    method RemoveClicked(value: seq<string>, onChange: CallbackId, url: string) returns (proposal: seq<string>)
      modifies this`calls
      ensures proposal == OnRemoveClick(value, url)
      ensures valueRef == old(valueRef) && onChangeRef == old(onChangeRef)
      ensures calls == old(calls) + [Call(onChange, proposal)]
    {
      proposal := OnRemoveClick(value, url);
      calls := calls + [Call(onChange, proposal)];
    }
  }

  /** Two success events fire with no host update in between: both start
      from the same committed value, so when both URLs are new the second
      proposal does not hold the first URL. */
  method SuccessesWithoutHostUpdate(value: seq<string>, onChange: CallbackId,
                                    first: UploadResponse, second: UploadResponse)
    returns (firstProposal: Option<seq<string>>, secondProposal: Option<seq<string>>)
    ensures firstProposal == OnUploadSuccess(value, first)
    ensures secondProposal == OnUploadSuccess(value, second)
    ensures UploadedUrl(first).Some? && UploadedUrl(second).Some? &&
            UploadedUrl(first) != UploadedUrl(second) &&
            UploadedUrl(first).value !in value && UploadedUrl(second).value !in value ==>
              secondProposal.Some? && UploadedUrl(first).value !in secondProposal.value
  {
    var refs := new FieldRefs(Some(value), onChange);
    firstProposal := refs.UploadSuccess(first);
    secondProposal := refs.UploadSuccess(second);
  }

  /** The host adopts the first proposal, and supplies a new callback, before
      the second event fires: the second event proposes from the adopted
      list, so nothing the first event added is lost, and its proposal goes
      to the new callback. */
  method SuccessesWithHostUpdate(value: seq<string>, onChange: CallbackId, nextOnChange: CallbackId,
                                 first: UploadResponse, second: UploadResponse)
    returns (calls: seq<Call>)
    ensures var adopted := Adopt(value, OnUploadSuccess(value, first));
      var secondProposal := OnUploadSuccess(adopted, second);
      (forall x :: x in adopted ==> x in Adopt(adopted, secondProposal)) &&
      calls == CallsFor(onChange, OnUploadSuccess(value, first)) + CallsFor(nextOnChange, secondProposal)
  {
    var refs := new FieldRefs(Some(value), onChange);
    var firstProposal := refs.UploadSuccess(first);
    refs.HostSetValue(Some(Adopt(value, firstProposal)));
    refs.HostSetOnChange(nextOnChange);
    var secondProposal := refs.UploadSuccess(second);
    calls := refs.calls;
  }
}
