/**
 * An extension's blocking dialogs. A response settles a dialog only if it is of the
 * dialog's own kind; every other way out gives the dialog's safe default.
 */
module Dialogs {
  import opened Wrappers
  import opened P = Parking

  const MAX_OPTIONS: nat := 64
  const MAX_OPTION_LENGTH: nat := 256

  /** A parked dialog carries only the options it offered, cut to what a card can show. */
  datatype Dialog = Select(options: seq<string>) | Confirm | Input | Editor

  datatype Answer = Undefined | Text(value: string) | Choice(confirmed: bool)

  datatype Response =
    | ToSelect(value: Option<string>)
    | ToConfirm(confirmed: bool)
    | ToInput(value: Option<string>)
    | ToEditor(value: Option<string>)

  /** When a dialog's signal aborts: before it is asked, while it is being parked, or not yet. */
  datatype Abort = Before | Meanwhile | NotYet

  type State = P.State<Dialog, Answer>

  datatype Step =
    | Ask(session: Session, dialog: Dialog, id: Id, abort: Abort)
    | Respond(id: Id, response: Response)
    | Expire(id: Id)
    | Close(session: Session)
    | Shutdown

  function Clamp(value: string, maxLength: nat): string {
    if |value| <= maxLength then value else value[..maxLength]
  }

  function ClampEach(options: seq<string>): (r: seq<string>)
    ensures |r| == |options|
    ensures forall i :: 0 <= i < |r| ==> r[i] == Clamp(options[i], MAX_OPTION_LENGTH)
  {
    if options == [] then [] else [Clamp(options[0], MAX_OPTION_LENGTH)] + ClampEach(options[1..])
  }

  function Offered(options: seq<string>): seq<string> {
    ClampEach(if |options| <= MAX_OPTIONS then options else options[..MAX_OPTIONS])
  }

  function Shown(dialog: Dialog): Dialog {
    match dialog
    case Select(options) => Select(Offered(options))
    case _ => dialog
  }

  function Default(dialog: Dialog): Answer {
    if dialog.Confirm? then Choice(false) else Undefined
  }

  function TextOr(value: Option<string>): Answer {
    match value
    case Some(text) => Text(text)
    case None => Undefined
  }

  /** What a response means to a dialog, or nothing when it is of another kind or names no option offered. */
  function AnswerTo(dialog: Dialog, response: Response): Option<Answer> {
    match (dialog, response)
    case (Select(options), ToSelect(value)) =>
      if value.None? || value.value in options then Some(TextOr(value)) else None
    case (Confirm, ToConfirm(confirmed)) => Some(Choice(confirmed))
    case (Input, ToInput(value)) => Some(TextOr(value))
    case (Editor, ToEditor(value)) => Some(TextOr(value))
    case _ => None
  }

  predicate AnsweredAtOnce(dialog: Dialog, abort: Abort) {
    (dialog.Select? && dialog.options == []) || abort.Before?
  }

  function GiveUp(s: State, id: Id): State {
    match Lookup(s.pending, id)
    case Some(entry) => Settle(s, id, Default(entry.request))
    case None => s
  }

  function AskDialog(s: State, session: Session, dialog: Dialog, id: Id, abort: Abort): State {
    if AnsweredAtOnce(dialog, abort) then s
    else
      var parked := Park(s, Entry(id, session, Shown(dialog)));
      if abort.Meanwhile? then GiveUp(parked, id) else parked
  }

  function RespondTo(s: State, id: Id, response: Response): State {
    match Lookup(s.pending, id)
    case Some(entry) =>
      (match AnswerTo(entry.request, response)
       case Some(answer) => Settle(s, id, answer)
       case None => s)
    case None => s
  }

  function Next(s: State, step: Step): State {
    match step
    case Ask(session, dialog, id, abort) => AskDialog(s, session, dialog, id, abort)
    case Respond(id, response) => RespondTo(s, id, response)
    case Expire(id) => GiveUp(s, id)
    case Close(session) => CancelSession(s, session, Default)
    case Shutdown => CancelAll(s, Default)
  }

  function Run(s: State, steps: seq<Step>): State
    decreases |steps|
  {
    if steps == [] then s else Run(Next(s, steps[0]), steps[1..])
  }

  ghost predicate FreshIds(s: State, steps: seq<Step>)
    decreases |steps|
  {
    steps == [] || ((steps[0].Ask? ==> Fresh(s, steps[0].id)) && FreshIds(Next(s, steps[0]), steps[1..]))
  }

  // ---- Safety -------------------------------------------------------------------------

  /** The answer that commits the user to nothing: no to a confirm, and nothing to the others. */
  predicate Harmless(dialog: Dialog, answer: Answer) {
    answer == if dialog.Confirm? then Choice(false) else Undefined
  }

  /** Something a response of the dialog's own kind can say. */
  predicate Acceptable(dialog: Dialog, answer: Answer) {
    match dialog
    case Select(options) => answer.Undefined? || (answer.Text? && answer.value in options)
    case Confirm => answer.Choice?
    case _ => answer.Undefined? || answer.Text?
  }

  /** Every settled dialog was told something of its own kind. */
  ghost predicate WellAnswered(history: seq<Happening<Dialog, Answer>>) {
    forall i :: 0 <= i < |history| && history[i].Settled? ==>
      exists j :: 0 <= j < i && history[j].Parked? && history[j].entry.id == history[i].id
                  && Acceptable(history[j].entry.request, history[i].value)
  }

  ghost predicate Safe(s: State) {
    Sound(s) && WellAnswered(s.history)
  }

  lemma AnswerIsAcceptable(dialog: Dialog, response: Response)
    ensures AnswerTo(dialog, response).Some? ==> Acceptable(dialog, AnswerTo(dialog, response).value)
  {
  }

  lemma SettleStaysSafe(s: State, id: Id, answer: Answer)
    requires Safe(s)
    requires Lookup(s.pending, id).Some? ==> Acceptable(Lookup(s.pending, id).value.request, answer)
    ensures Safe(Settle(s, id, answer))
  {
    SettleKeeps(s, id, answer);
    var found := Lookup(s.pending, id);
    var t := Settle(s, id, answer);
    if found.Some? {
      forall i | 0 <= i < |t.history| && t.history[i].Settled?
        ensures exists j :: 0 <= j < i && t.history[j].Parked? && t.history[j].entry.id == t.history[i].id
                            && Acceptable(t.history[j].entry.request, t.history[i].value)
      {
        if i < |s.history| {
          var j :| 0 <= j < i && s.history[j].Parked? && s.history[j].entry.id == s.history[i].id
                   && Acceptable(s.history[j].entry.request, s.history[i].value);
          assert t.history[j] == s.history[j];
        } else {
          var j :| 0 <= j < |s.history| && s.history[j] == Parked(found.value);
          assert t.history[j] == s.history[j];
        }
      }
    }
  }

  lemma ParkStaysSafe(s: State, entry: Entry<Dialog>)
    requires Safe(s) && Fresh(s, entry.id)
    ensures Safe(Park(s, entry))
  {
    ParkKeeps(s, entry);
    var t := Park(s, entry);
    forall i | 0 <= i < |t.history| && t.history[i].Settled?
      ensures exists j :: 0 <= j < i && t.history[j].Parked? && t.history[j].entry.id == t.history[i].id
                          && Acceptable(t.history[j].entry.request, t.history[i].value)
    {
      var j :| 0 <= j < i && s.history[j].Parked? && s.history[j].entry.id == s.history[i].id
               && Acceptable(s.history[j].entry.request, s.history[i].value);
      assert t.history[j] == s.history[j];
    }
  }

  lemma {:induction false} GiveUpEach(s: State, ids: seq<Id>)
    requires Safe(s)
    ensures Safe(SettleEach(s, ids, Default))
    decreases |ids|
  {
    if ids != [] {
      var found := Lookup(s.pending, ids[0]);
      if found.Some? {
        SettleStaysSafe(s, ids[0], Default(found.value.request));
        GiveUpEach(Settle(s, ids[0], Default(found.value.request)), ids[1..]);
      } else {
        GiveUpEach(s, ids[1..]);
      }
    }
  }

  lemma StepStaysSafe(s: State, step: Step)
    requires Safe(s) && (step.Ask? ==> Fresh(s, step.id))
    ensures Safe(Next(s, step))
  {
    match step
    case Ask(session, dialog, id, abort) =>
      var entry := Entry(id, session, Shown(dialog));
      ParkStaysSafe(s, entry);
      var parked := Park(s, entry);
      var found := Lookup(parked.pending, id);
      if found.Some? {
        SettleStaysSafe(parked, id, Default(found.value.request));
      }
    case Respond(id, response) =>
      var found := Lookup(s.pending, id);
      if found.Some? && AnswerTo(found.value.request, response).Some? {
        AnswerIsAcceptable(found.value.request, response);
        SettleStaysSafe(s, id, AnswerTo(found.value.request, response).value);
      }
    case Expire(id) =>
      var found := Lookup(s.pending, id);
      if found.Some? {
        SettleStaysSafe(s, id, Default(found.value.request));
      }
    case Close(session) => GiveUpEach(s, IdsOf(s.pending, session));
    case Shutdown => GiveUpEach(s, Ids(s.pending));
  }

  /** No step takes back what happened. */
  lemma StepGrows(s: State, step: Step)
    ensures s.history <= Next(s, step).history
  {
    match step
    case Close(session) => SettleEachAdds(s, IdsOf(s.pending, session), Default);
    case Shutdown => SettleEachAdds(s, Ids(s.pending), Default);
    case _ =>
  }

  /**
   * Over every run each dialog settles at most once, with its default or an answer of its own
   * kind, and what it was told is never taken back.
   */
  lemma {:induction false} RunStaysSafe(s: State, steps: seq<Step>)
    requires Safe(s) && FreshIds(s, steps)
    ensures Safe(Run(s, steps)) && s.history <= Run(s, steps).history
    decreases |steps|
  {
    if steps != [] {
      StepStaysSafe(s, steps[0]);
      StepGrows(s, steps[0]);
      RunStaysSafe(Next(s, steps[0]), steps[1..]);
    }
  }

  /** A dialog that leaves on any step but a response leaves with the answer that commits to nothing. */
  lemma OnlyResponsesAnswer(s: State, step: Step)
    requires Sound(s) && !step.Respond?
    requires step.Ask? ==> Fresh(s, step.id)
    ensures s.history <= Next(s, step).history
    ensures forall i :: |s.history| <= i < |Next(s, step).history| && Next(s, step).history[i].Settled? ==>
              var h := Next(s, step).history[i];
              exists entry :: (entry in s.pending || Parked(entry) in Next(s, step).history)
                              && entry.id == h.id && Harmless(entry.request, h.value)
  {
    match step
    case Ask(session, dialog, id, abort) =>
      var entry := Entry(id, session, Shown(dialog));
      var parked := Park(s, entry);
      ParkKeeps(s, entry);
      assert parked.pending[|s.pending|] == entry;
      FoundIs(parked.pending, entry);
      if !AnsweredAtOnce(dialog, abort) {
        assert Next(s, step).history[|s.history|] == Parked(entry);
      }
    case Expire(id) =>
    case Close(session) => SettleEachAdds(s, IdsOf(s.pending, session), Default);
    case Shutdown => SettleEachAdds(s, Ids(s.pending), Default);
  }

  /** Whether a response is of a dialog's kind and, to a selection, names nothing or an option offered. */
  predicate Fits(dialog: Dialog, response: Response) {
    match response
    case ToSelect(value) => dialog.Select? && (value.Some? ==> value.value in dialog.options)
    case ToConfirm(_) => dialog.Confirm?
    case ToInput(_) => dialog.Input?
    case ToEditor(_) => dialog.Editor?
  }

  /** What the user said. */
  predicate Says(response: Response, answer: Answer) {
    match response
    case ToConfirm(confirmed) => answer == Choice(confirmed)
    case _ =>
      || (response.value.None? && answer.Undefined?)
      || (response.value.Some? && answer == Text(response.value.value))
  }

  /**
   * A response to an open dialog that fits it settles it with what the user said, and no other
   * response does anything.
   */
  lemma RespondExactly(s: State, id: Id, response: Response)
    requires Sound(s)
    ensures var t, found := Next(s, Respond(id, response)), Lookup(s.pending, id);
            if found.Some? && Fits(found.value.request, response)
            then
              && Lookup(t.pending, id).None? && |t.history| == |s.history| + 1 && s.history <= t.history
              && t.history[|s.history|].Settled? && t.history[|s.history|].id == id
              && Says(response, t.history[|s.history|].value)
            else t == s
  {
    var found := Lookup(s.pending, id);
    if found.Some? && Fits(found.value.request, response) {
      SettleKeeps(s, id, AnswerTo(found.value.request, response).value);
    }
  }

  /** Giving up on an open dialog settles it, and harmlessly; on any other it does nothing. */
  lemma ExpireExactly(s: State, id: Id)
    requires Sound(s)
    ensures var t, found := Next(s, Expire(id)), Lookup(s.pending, id);
            if found.Some?
            then
              && Lookup(t.pending, id).None? && |t.history| == |s.history| + 1 && s.history <= t.history
              && t.history[|s.history|].Settled? && t.history[|s.history|].id == id
              && Harmless(found.value.request, t.history[|s.history|].value)
            else t == s
  {
    var found := Lookup(s.pending, id);
    if found.Some? {
      SettleKeeps(s, id, Default(found.value.request));
    }
  }

  /** What a card shows of a dialog: itself, or a selection's first 64 options, each cut to 256 characters. */
  predicate CutTo(dialog: Dialog, shown: Dialog) {
    match dialog
    case Select(options) =>
      && shown.Select?
      && |shown.options| == (if |options| < MAX_OPTIONS then |options| else MAX_OPTIONS)
      && forall i :: 0 <= i < |shown.options| ==>
           && |shown.options[i]| <= MAX_OPTION_LENGTH && shown.options[i] <= options[i]
           && (|shown.options[i]| < MAX_OPTION_LENGTH ==> shown.options[i] == options[i])
    case _ => shown == dialog
  }

  /** A dialog with something to choose and a signal that has not aborted is parked, cut to a card. */
  lemma AskExactly(s: State, session: Session, dialog: Dialog, id: Id, abort: Abort)
    requires Sound(s) && Fresh(s, id)
    ensures var t := Next(s, Ask(session, dialog, id, abort));
            if dialog == Select([]) || abort.Before? then t == s
            else
              && |t.history| == |s.history| + (if abort.Meanwhile? then 2 else 1) && s.history <= t.history
              && t.history[|s.history|].Parked?
              && var entry := t.history[|s.history|].entry;
                 && entry.id == id && entry.session == session && CutTo(dialog, entry.request)
                 && (if abort.NotYet? then t.pending == s.pending + [entry]
                     else
                       && t.history[|s.history| + 1].Settled? && t.history[|s.history| + 1].id == id
                       && Harmless(dialog, t.history[|s.history| + 1].value) && Lookup(t.pending, id).None?)
  {
    if !(dialog == Select([]) || abort.Before?) {
      var entry := Entry(id, session, Shown(dialog));
      var parked := Park(s, entry);
      ParkKeeps(s, entry);
      assert parked.pending[|s.pending|] == entry;
      FoundIs(parked.pending, entry);
      ShownIsCut(dialog);
      hide Sound, CutTo, Shown, Settle;
      ExpireExactly(parked, id);
    }
  }

  lemma ShownIsCut(dialog: Dialog)
    ensures CutTo(dialog, Shown(dialog)) && (Shown(dialog).Confirm? <==> dialog.Confirm?)
  {
    if dialog.Select? {
      var first := if |dialog.options| <= MAX_OPTIONS then dialog.options else dialog.options[..MAX_OPTIONS];
      assert forall i :: 0 <= i < |first| ==> first[i] == dialog.options[i];
    }
  }

  /** Why a dialog was told what it was: it was harmless to the dialog, or a user's response said it. */
  ghost predicate Warranted(history: seq<Happening<Dialog, Answer>>, steps: seq<Step>, id: Id, answer: Answer) {
    || (exists entry :: Parked(entry) in history && entry.id == id && Harmless(entry.request, answer))
    || (exists i :: 0 <= i < |steps| && steps[i].Respond? && steps[i].id == id && Says(steps[i].response, answer))
  }

  ghost predicate WarrantedFrom(history: seq<Happening<Dialog, Answer>>, n: nat, steps: seq<Step>) {
    forall k :: n <= k < |history| && history[k].Settled? ==> Warranted(history, steps, history[k].id, history[k].value)
  }

  lemma WarrantStays(
      history: seq<Happening<Dialog, Answer>>, more: seq<Happening<Dialog, Answer>>, steps: seq<Step>,
      before: seq<Step>, id: Id, answer: Answer)
    requires Warranted(history, steps, id, answer) && history <= more
    ensures Warranted(more, before + steps, id, answer)
  {
    hide Harmless, Says;
    if entry :| Parked(entry) in history && entry.id == id && Harmless(entry.request, answer) {
      var i :| 0 <= i < |history| && history[i] == Parked(entry);
      assert more[i] == Parked(entry);
    } else {
      var i :| 0 <= i < |steps| && steps[i].Respond? && steps[i].id == id && Says(steps[i].response, answer);
      assert (before + steps)[|before| + i] == steps[i];
    }
  }

  lemma StepWarrants(s: State, step: Step)
    requires Sound(s) && (step.Ask? ==> Fresh(s, step.id))
    ensures WarrantedFrom(Next(s, step).history, |s.history|, [step])
  {
    hide Says;
    var t := Next(s, step);
    if step.Respond? {
      RespondExactly(s, step.id, step.response);
      assert [step][0] == step;
    } else {
      OnlyResponsesAnswer(s, step);
      forall k | |s.history| <= k < |t.history| && t.history[k].Settled?
        ensures Warranted(t.history, [step], t.history[k].id, t.history[k].value)
      {
        var h := t.history[k];
        var entry :| (entry in s.pending || Parked(entry) in t.history)
                     && entry.id == h.id && Harmless(entry.request, h.value);
        if entry in s.pending {
          PendingWasParked(s, entry);
          var j :| 0 <= j < |s.history| && s.history[j] == Parked(entry);
          assert t.history[j] == Parked(entry);
        }
      }
    }
  }

  lemma PendingWasParked(s: State, entry: Entry<Dialog>)
    requires Sound(s) && entry in s.pending
    ensures Parked(entry) in s.history
  {
  }

  /**
   * Over every run, what a dialog was told was harmless to it or what a user's response to it said.
   * Only a user's yes confirms.
   */
  lemma {:induction false} OnlyUsersCommit(s: State, steps: seq<Step>)
    requires Safe(s) && FreshIds(s, steps)
    ensures WarrantedFrom(Run(s, steps).history, |s.history|, steps)
    decreases |steps|
  {
    hide Warranted, Harmless, Says, Safe, Next, Fresh;
    if steps != [] {
      var t := Next(s, steps[0]);
      SafeIsSound(s);
      StepStaysSafe(s, steps[0]);
      StepGrows(s, steps[0]);
      StepWarrants(s, steps[0]);
      RunStaysSafe(t, steps[1..]);
      OnlyUsersCommit(t, steps[1..]);
      var history := Run(s, steps).history;
      assert steps == [steps[0]] + steps[1..];
      forall k | |s.history| <= k < |history| && history[k].Settled?
        ensures Warranted(history, steps, history[k].id, history[k].value)
      {
        if k < |t.history| {
          assert t.history[k] == history[k];
          WarrantStays(t.history, history, [steps[0]], [], history[k].id, history[k].value);
          assert [] + [steps[0]] == [steps[0]];
          WarrantAmong(history, [steps[0]], steps[1..], history[k].id, history[k].value);
        } else {
          WarrantStays(history, history, steps[1..], [steps[0]], history[k].id, history[k].value);
        }
      }
    }
  }

  lemma SafeIsSound(s: State)
    requires Safe(s)
    ensures Sound(s)
  {
  }

  lemma WarrantAmong(history: seq<Happening<Dialog, Answer>>, first: seq<Step>, rest: seq<Step>,
                     id: Id, answer: Answer)
    requires Warranted(history, first, id, answer)
    ensures Warranted(history, first + rest, id, answer)
  {
    hide Harmless, Says;
    if !exists entry :: Parked(entry) in history && entry.id == id && Harmless(entry.request, answer) {
      var i :| 0 <= i < |first| && first[i].Respond? && first[i].id == id && Says(first[i].response, answer);
      assert (first + rest)[i] == first[i];
    }
  }

  lemma ConfirmedByUser(s: State, steps: seq<Step>, id: Id)
    requires Safe(s) && FreshIds(s, steps)
    requires Settled(id, Choice(true)) in Run(s, steps).history && Settled(id, Choice(true)) !in s.history
    ensures Respond(id, ToConfirm(true)) in steps
  {
    OnlyUsersCommit(s, steps);
    RunStaysSafe(s, steps);
    hide Run, FreshIds, Safe, Warranted;
    var history := Run(s, steps).history;
    var k :| 0 <= k < |history| && history[k] == Settled(id, Choice(true));
    OnlyYesSaysYes(history, steps, id);
  }

  lemma OnlyYesSaysYes(history: seq<Happening<Dialog, Answer>>, steps: seq<Step>, id: Id)
    requires Warranted(history, steps, id, Choice(true))
    ensures Respond(id, ToConfirm(true)) in steps
  {
    var i :| 0 <= i < |steps| && steps[i].Respond? && steps[i].id == id && Says(steps[i].response, Choice(true));
    assert steps[i] == Respond(id, ToConfirm(true));
  }

  /** Closing a session leaves it no open dialog, and leaves every other session's open. */
  lemma CloseAnswersSession(s: State, session: Session)
    requires Distinct(s.pending)
    ensures Next(s, Close(session)).pending == OfOthers(s.pending, session)
    ensures Next(s, Shutdown).pending == []
  {
    hide Distinct, SettleEach, OfOthers;
    CancelSessionLeaves(s, session, Default);
    CancelAllLeavesNone(s, Default);
  }

  /**
   * Choosing an offered option gives the extension back the option it passed exactly when that
   * option was short enough to be offered whole; a longer one comes back cut.
   */
  lemma ChosenOption(options: seq<string>, i: nat)
    requires i < |options| && i < MAX_OPTIONS
    ensures var offered := Offered(options);
            var answer := AnswerTo(Select(offered), ToSelect(Some(offered[i])));
            && answer == Some(Text(offered[i]))
            && (offered[i] == options[i] <==> |options[i]| <= MAX_OPTION_LENGTH)
  {
    var offered := Offered(options);
    assert offered[i] in offered;
  }

  /** An option past the last one shown can be chosen only if an earlier one reads the same. */
  lemma HiddenOption(options: seq<string>, value: string)
    ensures AnswerTo(Select(Offered(options)), ToSelect(Some(value))).Some? <==>
            exists i :: 0 <= i < |options| && i < MAX_OPTIONS && Clamp(options[i], MAX_OPTION_LENGTH) == value
  {
    var offered := Offered(options);
    if value in offered {
      var i :| 0 <= i < |offered| && offered[i] == value;
      assert Clamp(options[i], MAX_OPTION_LENGTH) == value;
    }
    if i :| 0 <= i < |options| && i < MAX_OPTIONS && Clamp(options[i], MAX_OPTION_LENGTH) == value {
      assert offered[i] == value;
    }
  }

  // ---- The gate --------------------------------------------------------------------------

  class ExtensionUiGate {
    const parked: ParkedRequests<Dialog, Answer>

    ghost predicate Valid()
      reads this, parked
    {
      parked.Valid() && Safe(parked.View())
    }

    constructor ()
      ensures Valid() && parked.View() == P.State([], []) && fresh(parked)
    {
      parked := new ParkedRequests();
    }

    /** Asks, answering at once when there is nothing to choose or nobody left to ask. */
    method Ask(session: Session, dialog: Dialog, id: Id, abort: Abort) returns (atOnce: Option<Answer>)
      requires Valid() && Fresh(parked.View(), id)
      modifies parked
      ensures Valid() && parked.View() == Next(old(parked.View()), Step.Ask(session, dialog, id, abort))
      ensures atOnce == if dialog == Select([]) || abort.Before?
                        then Some(if dialog.Confirm? then Choice(false) else Undefined) else None
    {
      StepStaysSafe(parked.View(), Step.Ask(session, dialog, id, abort));
      hide Safe, Sound, Fresh;
      if AnsweredAtOnce(dialog, abort) {
        return Some(Default(dialog));
      }
      parked.Add(Entry(id, session, Shown(dialog)));
      if abort.Meanwhile? {
        GiveUpOn(id);
      }
      return None;
    }

    method GiveUpOn(id: Id)
      requires parked.Valid()
      modifies parked
      ensures parked.Valid() && parked.View() == GiveUp(old(parked.View()), id)
    {
      var found := Lookup(parked.pending, id);
      if found.Some? {
        var _ := parked.Resolve(id, Default(found.value.request));
      }
    }

    method Respond(id: Id, response: Response) returns (applied: bool)
      requires Valid()
      modifies parked
      ensures Valid() && parked.View() == Next(old(parked.View()), Step.Respond(id, response))
      ensures !applied ==> parked.View() == old(parked.View())
      ensures applied <==> Lookup(old(parked.pending), id).Some?
                           && AnswerTo(Lookup(old(parked.pending), id).value.request, response).Some?
    {
      StepStaysSafe(parked.View(), Step.Respond(id, response));
      hide Safe, Sound;
      var found := Lookup(parked.pending, id);
      if found.None? {
        return false;
      }
      var answer := AnswerTo(found.value.request, response);
      if answer.None? {
        return false;
      }
      applied := parked.Resolve(id, answer.value);
    }

    /** A timer that fires or a signal that aborts. */
    method Expire(id: Id)
      requires Valid()
      modifies parked
      ensures Valid() && parked.View() == Next(old(parked.View()), Step.Expire(id))
    {
      StepStaysSafe(parked.View(), Step.Expire(id));
      hide Safe, Sound;
      GiveUpOn(id);
    }

    method CancelSession(session: Session)
      requires Valid()
      modifies parked
      ensures Valid() && parked.View() == Next(old(parked.View()), Step.Close(session))
    {
      StepStaysSafe(parked.View(), Step.Close(session));
      hide Safe, Sound, SettleEach;
      parked.Close(session, Default);
    }

    method CancelAll()
      requires Valid()
      modifies parked
      ensures Valid() && parked.View() == Next(old(parked.View()), Shutdown)
    {
      StepStaysSafe(parked.View(), Shutdown);
      hide Safe, Sound, SettleEach;
      parked.CloseAll(Default);
    }
  }
}
