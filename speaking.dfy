// The speaking coach of components/SpeakingCoach.tsx: the generated practice text is
// split at a separator into the exercise and the rewards text, and two handlers move the
// page through its loading and analysing states. The two generation services are
// outside the model: a submit hands out a request and a later call delivers the reply.
module Speaking {
  import opened Strings

  /** Line 23; the generation prompt asks for the same literal (services/geminiService.ts:155). */
  const Separator := "---GAMIFICATION---"
  const Apology := "Sorry, we couldn't analyze your audio at this time."

  /**
   * Lines 39-46: with the separator, the texts before its first and after it (up to a
   * second occurrence); without it, the whole text and nothing.
   */
  function SplitResult(full: string): (r: (string, string))
    ensures !Contains(r.0, Separator) && !Contains(r.1, Separator)
  {
    if Contains(full, Separator) then
      var parts := Split(full, Separator);
      SplitContains(full, Separator);
      SplitPiecesFree(full, Separator);
      (parts[0], parts[1])
    else
      assert !Occurs([], Separator, 0);
      (full, [])
  }

  /** The exercise is what precedes the first separator; the rewards text is what lies between the first and second. */
  lemma SplitResultSegments(full: string)
    ensures !Contains(full, Separator) ==> SplitResult(full) == (full, [])
    ensures Contains(full, Separator) ==>
      var i := IndexOf(full, Separator);
      SplitResult(full) == (full[..i], Split(full[i + |Separator|..], Separator)[0])
  {
    if Contains(full, Separator) {
      SplitContains(full, Separator);
    }
  }

  /** With one separator and nothing after it that repeats it, the two texts and the separator give back the result. */
  lemma SplitResultRejoins(full: string)
    requires Contains(full, Separator)
    requires !Contains(full[IndexOf(full, Separator) + |Separator|..], Separator)
    ensures SplitResult(full).0 + Separator + SplitResult(full).1 == full
  {
    var sep := Separator;
    var i := IndexOf(full, sep);
    var rest := full[i + |sep|..];
    SplitResultSegments(full);
    SplitAbsent(rest, sep);
    OccursSplice(full, sep, i);
    assert SplitResult(full) == (full[..i], rest);
  }

  /** The first piece of a split at the separator is empty exactly when the text is empty or opens with the separator. */
  lemma FirstPieceEmpty(s: string)
    ensures Split(s, Separator)[0] == [] <==> s == [] || StartsWith(s, Separator)
  {
    assert StartsWith(s, Separator) <==> Occurs(s, Separator, 0);
    if Contains(s, Separator) {
      SplitContains(s, Separator);
    } else {
      SplitAbsent(s, Separator);
    }
  }

  /** Line 123: the exercise is shown unless the generated text is empty or opens with the separator. */
  lemma ExerciseShownWhen(full: string)
    ensures SplitResult(full).0 != [] <==> full != [] && !StartsWith(full, Separator)
  {
    FirstPieceEmpty(full);
    if Contains(full, Separator) {
      SplitContains(full, Separator);
    } else {
      SplitAbsent(full, Separator);
    }
  }

  /** Line 124: the rewards panel is shown when the separator occurs and text other than a second separator follows it. */
  lemma RewardsShownWhen(full: string)
    ensures SplitResult(full).1 != [] <==>
      Contains(full, Separator) &&
      var rest := full[IndexOf(full, Separator) + |Separator|..]; rest != [] && !StartsWith(rest, Separator)
  {
    if Contains(full, Separator) {
      SplitContains(full, Separator);
      FirstPieceEmpty(full[IndexOf(full, Separator) + |Separator|..]);
    }
  }

  /** Line 57: `split(',')[1]` of a data URL, `undefined` when there is no comma. */
  function DataUrlPayload(url: string): (r: Option<string>)
    ensures r.Some? <==> Contains(url, ",")
    ensures r.Some? ==> !Contains(r.value, ",")
    ensures r.Some? ==> var i := IndexOf(url, ","); r.value == Split(url[i + 1..], ",")[0]
  {
    var parts := Split(url, ",");
    SplitPiecesFree(url, ",");
    if Contains(url, ",") then SplitContains(url, ",");
      Some(parts[1])
    else SplitAbsent(url, ","); None
  }

  /** The payload of `header,data` is `data` when neither holds a comma. */
  lemma PayloadOfDataUrl(header: string, data: string)
    requires NoChar(header, ',') && NoChar(data, ',')
    ensures DataUrlPayload(header + "," + data) == Some(data)
  {
    var url := header + "," + data;
    var n := |header|;
    assert Occurs(url, ",", n) by { assert url[n..n + 1] == ","; }
    forall j | 0 <= j < n ensures !Occurs(url, ",", j) {
      assert url[j..j + 1][0] == header[j];
    }
    assert IndexOf(url, ",") == n;
    SplitContains(url, ",");
    assert url[n + 1..] == data;
    assert !Contains(data, ",") by {
      forall j | 0 <= j <= |data| ensures !Occurs(data, ",", j) {
        if j < |data| { assert data[j..j + 1][0] == data[j]; }
      }
    }
    SplitAbsent(data, ",");
  }

  /** `ProficiencyLevel` of types.ts. */
  datatype Level = A1 | A2 | B1 | B2 | C1 | C2

  /** A finished recording: its data URL (what the file reader produces) and its MIME type. */
  datatype Recording = Recording(dataUrl: string, mimeType: string)

  /** The arguments of `generateSpeakingPractice` (line 37). */
  datatype PracticeRequest = PracticeRequest(level: Level, topic: string, scenario: string)

  /** The arguments of `getPronunciationFeedback` (line 72). */
  datatype FeedbackRequest = FeedbackRequest(level: Level, exercise: string, audio: Option<string>, mimeType: string)

  /** How a feedback request ends: the service's text, or a rejection caught at lines 74-76. */
  datatype FeedbackReply = Replied(text: string) | Rejected

  /** The state of lines 12-21. */
  class Coach {
    var level: Level
    var topic: string
    var scenario: string
    var loading: bool
    var exercise: string
    var gamification: string
    var recording: Option<Recording>
    var analyzing: bool
    var feedback: string

    constructor()
      ensures level == B1 && topic == [] && scenario == []
      ensures !loading && exercise == [] && gamification == []
      ensures recording.None? && !analyzing && feedback == []
    {
      level, topic, scenario := B1, [], [];
      loading, exercise, gamification := false, [], [];
      recording, analyzing, feedback := None, false, [];
    }

    /** Line 124: the rewards panel is shown exactly when its text is non-empty. */
    predicate ShowsRewards()
      reads this
    {
      gamification != []
    }

    /** Lines 123 and 126: the exercise and the recorder are shown when the exercise is non-empty. */
    predicate ShowsExercise()
      reads this
    {
      exercise != []
    }

    /** Lines 93, 99, 108: the form fields. */
    method EditForm(newLevel: Level, newTopic: string, newScenario: string)
      modifies this
      ensures level == newLevel && topic == newTopic && scenario == newScenario
      ensures loading == old(loading) && exercise == old(exercise) && gamification == old(gamification)
      ensures recording == old(recording) && analyzing == old(analyzing) && feedback == old(feedback)
    {
      level, topic, scenario := newLevel, newTopic, newScenario;
    }

    /**
     * Lines 25-37, up to the request: refused without a topic or a scenario, otherwise
     * loading starts and the previous exercise, rewards, recording and feedback are cleared.
     */
    method StartSubmit() returns (request: Option<PracticeRequest>)
      modifies this
      ensures topic == old(topic) && scenario == old(scenario) && level == old(level) && analyzing == old(analyzing)
      ensures (old(topic) == [] || old(scenario) == []) ==>
        request.None? && loading == old(loading) && exercise == old(exercise) && gamification == old(gamification)
        && recording == old(recording) && feedback == old(feedback)
      ensures (old(topic) != [] && old(scenario) != []) ==>
        request == Some(PracticeRequest(level, topic, scenario)) && loading
        && exercise == [] && gamification == [] && recording.None? && feedback == []
    {
      if topic == [] || scenario == [] {
        return None;
      }
      loading := true;
      exercise := [];
      gamification := [];
      recording := None;
      feedback := [];
      request := Some(PracticeRequest(level, topic, scenario));
    }

    /** Lines 39-48: the generated text is split and loading ends. */
    method FinishSubmit(fullResult: string)
      modifies this
      ensures (exercise, gamification) == SplitResult(fullResult) && !loading
      ensures ShowsExercise() <==> fullResult != [] && !StartsWith(fullResult, Separator)
      ensures ShowsRewards() <==>
        Contains(fullResult, Separator) &&
        var rest := fullResult[IndexOf(fullResult, Separator) + |Separator|..]; rest != [] && !StartsWith(rest, Separator)
      ensures level == old(level) && topic == old(topic) && scenario == old(scenario)
      ensures recording == old(recording) && analyzing == old(analyzing) && feedback == old(feedback)
    {
      if Contains(fullResult, Separator) {
        var parts := Split(fullResult, Separator);
        SplitContains(fullResult, Separator);
        exercise := parts[0];
        gamification := parts[1];
      } else {
        exercise := fullResult;
        gamification := [];
      }
      loading := false;
      ExerciseShownWhen(fullResult);
      RewardsShownWhen(fullResult);
    }

    /** Line 130: the recorder hands over a finished recording. */
    method SetRecording(r: Recording)
      modifies this
      ensures recording == Some(r)
      ensures level == old(level) && topic == old(topic) && scenario == old(scenario) && loading == old(loading)
      ensures exercise == old(exercise) && gamification == old(gamification)
      ensures analyzing == old(analyzing) && feedback == old(feedback)
    {
      recording := Some(r);
    }

    /**
     * Lines 63-72, up to the request: refused without a recording or an exercise,
     * otherwise analysis starts, the old feedback is cleared and the audio payload is sent.
     */
    method StartFeedback() returns (request: Option<FeedbackRequest>)
      modifies this
      ensures level == old(level) && topic == old(topic) && scenario == old(scenario) && loading == old(loading)
      ensures exercise == old(exercise) && gamification == old(gamification) && recording == old(recording)
      ensures (old(recording).None? || old(exercise) == []) ==>
        request.None? && analyzing == old(analyzing) && feedback == old(feedback)
      ensures (old(recording).Some? && old(exercise) != []) ==>
        analyzing && feedback == []
        && request == Some(FeedbackRequest(level, exercise, DataUrlPayload(recording.value.dataUrl), recording.value.mimeType))
    {
      if recording.None? || exercise == [] {
        return None;
      }
      analyzing := true;
      feedback := [];
      var r := recording.value;
      request := Some(FeedbackRequest(level, exercise, DataUrlPayload(r.dataUrl), r.mimeType));
    }

    /** Lines 73-79: the reply or the apology becomes the feedback, and analysis always ends. */
    method FinishFeedback(reply: FeedbackReply)
      modifies this
      ensures !analyzing
      ensures feedback == match reply case Replied(text) => text case Rejected => Apology
      ensures level == old(level) && topic == old(topic) && scenario == old(scenario) && loading == old(loading)
      ensures exercise == old(exercise) && gamification == old(gamification) && recording == old(recording)
    {
      match reply {
        case Replied(text) => feedback := text;
        case Rejected => feedback := Apology;
      }
      analyzing := false;
    }
  }
}
