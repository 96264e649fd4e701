/**
 * The caption workflow of the app component (App.tsx): four state cells that
 * the file-select, generate and reset handlers overwrite, with generation split
 * at its `await` into a start step and a success or failure completion.
 *
 * `Apply` is the step function over a snapshot of the four cells; the class
 * `App` performs the same steps in place and its methods are tied to `Apply`.
 */
module AppFlow {
  import opened Types
  import FileUpload

  /** The one error text the failure branch stores. */
  const FailureMessage: string := "Failed to generate captions. Please try again or check your file."

  /** The four state cells `appState`, `media`, `result` and `error`. */
  datatype Snapshot = Snapshot(state: AppState, media: Option<MediaFile>, result: Option<CaptionResponse>, error: Option<string>)

  /** The arguments handed to the captioning service. */
  datatype Request = Request(base64: Option<string>, mimeType: string)

  /** How the awaited service call settles: with a response, or by throwing. */
  datatype ServiceOutcome = Delivered(data: CaptionResponse) | Failed

  /** A handler call, or the settling of the call a generation started. */
  datatype Event = Select(chosen: MediaFile) | Generate | Resolve(outcome: ServiceOutcome) | Reset

  function Initial(): Snapshot
  {
    Snapshot(Idle, None, None, None)
  }

  /**
   * The arguments `(media.base64, media.mimeType)` a generate hands to the service
   * from `s`: a request exists exactly when media is held, and carries that media's
   * payload and MIME type.
   */
  function RequestFor(s: Snapshot): (r: Option<Request>)
    ensures r.Some? <==> s.media.Some?
    ensures r.Some? ==> r.value.base64 == s.media.value.base64 && r.value.mimeType == s.media.value.mimeType
  {
    match s.media
    case None => None
    case Some(m) => Some(Request(m.base64, m.mimeType))
  }

  /**
   * One step of the workflow. Only a select and a reset replace the media, and
   * both return to IDLE with no result and no error; generation and its
   * completions keep the media; only a generate enters ANALYZING; the only error
   * text ever written is the fixed message.
   */
  function Apply(s: Snapshot, e: Event): (r: Snapshot)
    ensures e.Select? ==> r.media == Some(e.chosen)
    ensures e.Reset? ==> r.media.None?
    ensures e.Select? || e.Reset? ==> r.state == Idle && r.result.None? && r.error.None?
    ensures !e.Select? && !e.Reset? ==> r.media == s.media
    ensures r.state == Analyzing ==> e.Generate?
    ensures r.error.Some? ==> r.error == s.error || r.error == Some(FailureMessage)
  {
    match e
    case Select(m) => Snapshot(Idle, Some(m), None, None)
    case Generate =>
      if s.media.None? then s
      else s.(state := Analyzing, error := None)
    case Resolve(Delivered(data)) => s.(result := Some(data), state := Success)
    case Resolve(Failed) => s.(error := Some(FailureMessage), state := Error)
    case Reset => Snapshot(Idle, None, None, None)
  }

  /** A completion only follows the start of a generation: it is taken only from ANALYZING. */
  predicate Enabled(s: Snapshot, e: Event)
  {
    e.Resolve? ==> s.state == Analyzing
  }

  /**
   * What the rendered page offers in `s`: the upload control only without media;
   * everything else sits in the media panel; generate in IDLE and ERROR; reset in
   * IDLE, ERROR, and SUCCESS once a result is shown; nothing while ANALYZING.
   */
  predicate Offered(s: Snapshot, e: Event): (b: bool)
    ensures b && s.state == Analyzing ==> !e.Generate? && !e.Reset?
    ensures b && e.Generate? ==> s.media.Some? && s.state != Analyzing && s.state != Success
    ensures b && e.Resolve? ==> s.state == Analyzing
  {
    match e
    case Select(_) => s.media.None?
    case Generate => s.media.Some? && (s.state == Idle || s.state == Error)
    case Reset =>
      s.media.Some? && (s.state == Idle || s.state == Error || (s.state == Success && s.result.Some?))
    case Resolve(_) => s.state == Analyzing
  }

  function Run(s: Snapshot, es: seq<Event>): Snapshot
    decreases |es|
  {
    if |es| == 0 then s else Run(Apply(s, es[0]), es[1..])
  }

  predicate RunEnabled(s: Snapshot, es: seq<Event>)
    decreases |es|
  {
    |es| == 0 || (Enabled(s, es[0]) && RunEnabled(Apply(s, es[0]), es[1..]))
  }

  predicate RunOffered(s: Snapshot, es: seq<Event>)
    decreases |es|
  {
    |es| == 0 || (Offered(s, es[0]) && RunOffered(Apply(s, es[0]), es[1..]))
  }

  /** What every sequence of handler calls keeps. */
  predicate HandlerInvariant(s: Snapshot)
  {
    && (s.state != Idle ==> s.media.Some?)
    && (s.error.Some? <==> s.state == Error)
    && (s.error.Some? ==> s.error.value == FailureMessage)
  }

  /** What the sequences the page offers keep in addition. */
  predicate GatedInvariant(s: Snapshot)
  {
    HandlerInvariant(s) && (s.result.Some? <==> s.state == Success)
  }

  // ----- single steps -----
  // These restate, on the pure side, what the methods of `App` below ensure about
  // one handler call; they are the form that lemmas about snapshots and runs can use.

  /** Selecting media stores exactly that descriptor, clears result and error, and returns to IDLE. */
  lemma SelectStoresDescriptor(s: Snapshot, m: MediaFile)
    ensures Apply(s, Select(m)) == Initial().(media := Some(m))
    ensures RequestFor(Apply(s, Select(m))) == Some(Request(m.base64, m.mimeType))
  {
  }

  /** Generate with no media changes nothing and sends nothing. */
  lemma GenerateWithoutMediaIsNoOp(s: Snapshot)
    requires s.media.None?
    ensures Apply(s, Generate) == s && RequestFor(s).None?
  {
  }

  /**
   * Starting a generation enters ANALYZING, clears the error, keeps media and
   * result, and sends exactly the descriptor's payload and MIME type.
   */
  lemma GenerateStartSendsDescriptor(s: Snapshot)
    requires s.media.Some?
    ensures Apply(s, Generate) == Snapshot(Analyzing, s.media, s.result, None)
    ensures RequestFor(s) == Some(Request(s.media.value.base64, s.media.value.mimeType))
  {
  }

  /** Reset empties every cell and returns to IDLE, whatever it starts from; again, it changes nothing. */
  lemma ResetIsIdempotent(s: Snapshot)
    ensures Apply(s, Reset) == Initial()
    ensures Apply(Apply(s, Reset), Reset) == Apply(s, Reset)
  {
  }

  /**
   * A failed attempt lands in ERROR with the fixed message and the same media,
   * where retry is offered and resends the same payload and MIME type.
   */
  lemma RetryResendsSameRequest(s: Snapshot)
    requires s.media.Some?
    ensures var t := Apply(Apply(s, Generate), Resolve(Failed));
            && t.state == Error
            && t.error == Some(FailureMessage)
            && t.media == s.media
            && Offered(t, Generate)
            && RequestFor(t) == RequestFor(s)
  {
  }

  // ----- invariants over runs -----

  lemma StepKeepsHandlerInvariant(s: Snapshot, e: Event)
    requires HandlerInvariant(s) && Enabled(s, e)
    ensures HandlerInvariant(Apply(s, e))
  {
  }

  lemma StepKeepsGatedInvariant(s: Snapshot, e: Event)
    requires GatedInvariant(s) && Offered(s, e)
    ensures GatedInvariant(Apply(s, e))
  {
  }

  /** Over every sequence of handler calls: a non-IDLE state has media, and an error is recorded exactly in ERROR. */
  lemma {:induction false} RunKeepsHandlerInvariant(s: Snapshot, es: seq<Event>)
    requires HandlerInvariant(s) && RunEnabled(s, es)
    ensures HandlerInvariant(Run(s, es))
    decreases |es|
  {
    if |es| > 0 {
      StepKeepsHandlerInvariant(s, es[0]);
      RunKeepsHandlerInvariant(Apply(s, es[0]), es[1..]);
    }
  }

  /** Over every sequence the page offers: in addition, a result is held exactly in SUCCESS. */
  lemma {:induction false} RunKeepsGatedInvariant(s: Snapshot, es: seq<Event>)
    requires GatedInvariant(s) && RunOffered(s, es)
    ensures GatedInvariant(Run(s, es))
    decreases |es|
  {
    if |es| > 0 {
      StepKeepsGatedInvariant(s, es[0]);
      RunKeepsGatedInvariant(Apply(s, es[0]), es[1..]);
    }
  }

  /** An offered run is also a run of handler calls. */
  lemma {:induction false} OfferedRunIsEnabled(s: Snapshot, es: seq<Event>)
    requires RunOffered(s, es)
    ensures RunEnabled(s, es)
    decreases |es|
  {
    if |es| > 0 {
      OfferedRunIsEnabled(Apply(s, es[0]), es[1..]);
    }
  }

  /**
   * In any state reached by the page's offered actions, nothing but the pending
   * call's completion can happen while ANALYZING: no second generation starts.
   */
  lemma NoSecondGenerationWhileAnalyzing(es: seq<Event>, e: Event)
    requires RunOffered(Initial(), es)
    requires Run(Initial(), es).state == Analyzing
    requires Offered(Run(Initial(), es), e)
    ensures e.Resolve?
  {
    RunKeepsGatedInvariant(Initial(), es);
  }

  /**
   * Without the page's gating the result/SUCCESS link breaks: a generate from
   * SUCCESS that fails leaves the stale result behind in ERROR.
   */
  lemma UngatedRetryKeepsStaleResult(m: MediaFile, data: CaptionResponse)
    ensures var es := [Select(m), Generate, Resolve(Delivered(data)), Generate, Resolve(Failed)];
            && RunEnabled(Initial(), es)
            && !RunOffered(Initial(), es)
            && Run(Initial(), es).state == Error
            && Run(Initial(), es).result == Some(data)
  {
    var es := [Select(m), Generate, Resolve(Delivered(data)), Generate, Resolve(Failed)];
    var s1 := Apply(Initial(), Select(m));
    var s2 := Apply(s1, Generate);
    var s3 := Apply(s2, Resolve(Delivered(data)));
    var s4 := Apply(s3, Generate);
    var s5 := Apply(s4, Resolve(Failed));
    assert es[1..] == [Generate, Resolve(Delivered(data)), Generate, Resolve(Failed)];
    assert es[2..] == [Resolve(Delivered(data)), Generate, Resolve(Failed)];
    assert es[3..] == [Generate, Resolve(Failed)];
    assert es[4..] == [Resolve(Failed)];
    assert es[1..][1..] == es[2..] && es[2..][1..] == es[3..] && es[3..][1..] == es[4..];
    assert es[4..][1..] == [];
    assert Run(s4, es[4..]) == s5;
    assert Run(s3, es[3..]) == s5;
    assert Run(s2, es[2..]) == s5;
    assert Run(s1, es[1..]) == s5;
    assert RunEnabled(s3, es[3..]);
    assert RunEnabled(s2, es[2..]);
    assert RunEnabled(s1, es[1..]);
    assert !Offered(s3, Generate);
    assert !RunOffered(s2, es[2..]);
    assert !RunOffered(s1, es[1..]);
  }

  /**
   * End to end: a file the upload control accepts, read as a base64 data URL of
   * its own type and then selected, makes the next generate send exactly the
   * file's encoded bytes and its MIME type.
   */
  lemma UploadedPayloadReachesService(f: File, p: string, previewUrl: string, s: Snapshot)
    requires FileUpload.Acceptable(f)
    requires ',' !in f.mimeType
    requires FileUpload.IsBase64Text(p)
    ensures var sel := FileUpload.HandleFileChange(Some(f), Some(FileUpload.DataUrl(f.mimeType, p)), previewUrl);
            && sel.Accepted?
            && RequestFor(Apply(s, Select(sel.media))) == Some(Request(Some(p), f.mimeType))
  {
    FileUpload.AcceptedPayloadRoundTrip(f, p, previewUrl);
  }

  // ----- the component's state, updated in place -----

  class App {
    var appState: AppState
    var media: Option<MediaFile>
    var result: Option<CaptionResponse>
    var error: Option<string>

    function View(): Snapshot
      reads this
    {
      Snapshot(appState, media, result, error)
    }

    ghost predicate Valid()
      reads this
    {
      HandlerInvariant(View())
    }

    /** The initial `useState` values. */
    constructor ()
      ensures Valid()
      ensures appState == Idle && media == None && result == None && error == None
      ensures View() == Initial()
    {
      appState := Idle;
      media := None;
      result := None;
      error := None;
    }

    /** `handleFileSelect` */
    method HandleFileSelect(selected: MediaFile)
      requires Valid()
      modifies this
      ensures Valid()
      ensures appState == Idle && media == Some(selected) && result == None && error == None
      ensures View() == Apply(old(View()), Select(selected))
    {
      media := Some(selected);
      result := None;
      error := None;
      appState := Idle;
    }

    /**
     * `handleGenerate` up to its `await`: returns the arguments of the service
     * call, or nothing (and changes nothing) when no media is held.
     */
    method StartGenerate() returns (request: Option<Request>)
      requires Valid()
      modifies this
      ensures Valid()
      ensures request == RequestFor(old(View()))
      ensures old(media).None? ==> request.None? && unchanged(this)
      ensures old(media).Some? ==>
                && request == Some(Request(old(media).value.base64, old(media).value.mimeType))
                && appState == Analyzing && error == None
                && media == old(media) && result == old(result)
      ensures View() == Apply(old(View()), Generate)
    {
      if media.None? {
        return None;
      }
      appState := Analyzing;
      error := None;
      request := Some(Request(media.value.base64, media.value.mimeType));
    }

    /** The `try` branch after the `await`: the service answered with `data`. */
    method CompleteSuccess(data: CaptionResponse)
      requires Valid() && appState == Analyzing
      modifies this
      ensures Valid()
      ensures appState == Success && result == Some(data)
      ensures media == old(media) && error == old(error) == None
      ensures View() == Apply(old(View()), Resolve(Delivered(data)))
    {
      result := Some(data);
      appState := Success;
    }

    /** The `catch` branch after the `await`: the service call threw. */
    method CompleteFailure()
      requires Valid() && appState == Analyzing
      modifies this
      ensures Valid()
      ensures appState == Error && error == Some(FailureMessage)
      ensures media == old(media) && result == old(result)
      ensures View() == Apply(old(View()), Resolve(Failed))
    {
      error := Some(FailureMessage);
      appState := Error;
    }

    /** `reset` */
    method Reset()
      requires Valid()
      modifies this
      ensures Valid()
      ensures appState == Idle && media == None && result == None && error == None
      ensures View() == Apply(old(View()), Event.Reset)
    {
      media := None;
      result := None;
      appState := Idle;
      error := None;
    }
  }
}
