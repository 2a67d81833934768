/** The quiz session state machine: the screen, the question index, the score, the chosen
    option, the input lock and the feedback countdown, with one transition per input event. */
module QuizSession {
  import opened QuizData

  datatype Screen = Intro | Quiz | Result

  datatype Session = Session(state: Screen, current: nat, score: nat, selectedIndex: int,
                             lockInput: bool, feedbackTimer: nat)

  /** Frames the answer feedback stays on screen before the quiz moves on. */
  const NextDelayFrames: nat := 45

  /** The counters as start and restart leave them, on the given screen. */
  function Fresh(state: Screen): Session
  {
    Session(state, 0, 0, -1, false, 0)
  }

  /** Records option i as the answer to a question whose right option is `correct`. */
  function Record(s: Session, i: int, correct: int): (r: Session)
    ensures r.state == s.state && r.current == s.current
    ensures r.selectedIndex == i && r.lockInput && r.feedbackTimer == NextDelayFrames
    ensures r.score == if i == correct then s.score + 1 else s.score
  {
    s.(selectedIndex := i, lockInput := true, feedbackTimer := NextDelayFrames,
       score := if i == correct then s.score + 1 else s.score)
  }

  /** A pointer press. `onStart` says the pointer is on the start control, `box` is the
      first option box under the pointer or -1. On the intro screen a press on the start
      control starts a quiz; otherwise the press answers with `box` when the quiz is showing
      an unanswered question. */
  function Press(s: Session, onStart: bool, box: int, qs: seq<Question>): (r: Session)
    ensures Inv(s, |qs|) && -1 <= box < 4 ==> Inv(r, |qs|)
  {
    if s.state == Intro && onStart then Fresh(Quiz)
    else if s.state != Quiz || s.lockInput then s
    else if s.current >= |qs| then s
    else if box < 0 then s
    else Record(s, box, qs[s.current].correct)
  }

  /** The option a key chooses: a, b, c, d in either case, else -1. */
  function KeyIndex(key: string): (i: int)
    ensures -1 <= i < 4
    ensures forall k :: 0 <= k < 4 ==> (i == k <==> key == [LowerLetters[k]] || key == [UpperLetters[k]])
  {
    if key == "a" || key == "A" then 0
    else if key == "b" || key == "B" then 1
    else if key == "c" || key == "C" then 2
    else if key == "d" || key == "D" then 3
    else -1
  }

  /** The quiz shows a valid question whenever it is on the quiz screen; the key handler
      relies on it, since unlike the pointer handler it does not check the index. */
  predicate CurrentInRange(s: Session, n: int)
  {
    s.state == Quiz ==> s.current < n
  }

  /** A key press: on an unanswered question, a letter key answers with its option. */
  function KeyDown(s: Session, key: string, qs: seq<Question>): (r: Session)
    requires CurrentInRange(s, |qs|)
    ensures Inv(s, |qs|) ==> Inv(r, |qs|)
  {
    if s.state == Quiz && !s.lockInput && KeyIndex(key) != -1
    then Record(s, KeyIndex(key), qs[s.current].correct)
    else s
  }

  /** A typed character: r or R on the result screen goes back to the intro with all
      counters reset. */
  function KeyTyped(s: Session, key: string): Session
  {
    if s.state == Result && (key == "r" || key == "R") then Fresh(Intro) else s
  }

  /** The feedback countdown of a quiz frame: a running countdown loses one frame, and when
      it expires the answer is cleared and the quiz moves to the next question, or to the
      result screen after the last one. */
  function Countdown(s: Session, n: int): Session
  {
    if s.feedbackTimer > 0 then
      var t := s.feedbackTimer - 1;
      if t == 0 then
        var c := s.current + 1;
        s.(feedbackTimer := 0, selectedIndex := -1, lockInput := false, current := c,
           state := if c >= n then Result else s.state)
      else s.(feedbackTimer := t)
    else s
  }

  /** One frame of the quiz screen: with no question left the result screen takes over at
      once, otherwise the countdown runs. */
  function QuizFrame(s: Session, n: int): Session
  {
    if s.current >= n then s.(state := Result) else Countdown(s, n)
  }

  // ---------------------------------------------------------------------------------------
  // The invariant

  /** What holds between any two events of a running sketch with n > 0 questions:
      the score is bounded by the questions answered so far, the lock, the chosen option and
      the countdown go together, and each screen has its characteristic index. */
  predicate Inv(s: Session, n: int)
  {
    && n > 0
    && s.current <= n
    && s.score <= s.current + (if s.lockInput then 1 else 0)
    && (s.lockInput ==> s.current < n && s.state == Quiz && 0 <= s.selectedIndex < 4)
    && (!s.lockInput ==> s.selectedIndex == -1)
    && (s.lockInput <==> s.feedbackTimer > 0)
    && s.feedbackTimer <= NextDelayFrames
    && (s.state == Quiz ==> s.current < n)
    && (s.state == Result ==> s.current == n)
    && (s.state == Intro ==> s.current == 0 && s.score == 0)
  }

  /** The score never exceeds the number of questions, and is at most the number answered. */
  lemma InvScoreBounds(s: Session, n: int)
    requires Inv(s, n)
    ensures s.score <= s.current + (if s.lockInput then 1 else 0) <= n
  {
  }

  /** The countdown and the quiz-screen frame keep the invariant on whatever screen they run;
      off the quiz screen the countdown is idle. */
  lemma FrameKeepsInv(s: Session, n: int)
    requires Inv(s, n)
    ensures Inv(Countdown(s, n), n) && Inv(QuizFrame(s, n), n)
    ensures s.state != Quiz ==> Countdown(s, n) == s
  {
  }

  /** Whether a pointer press records an answer (rather than starting, or being ignored). */
  predicate PressAnswers(s: Session, box: int, n: int)
  {
    s.state == Quiz && !s.lockInput && s.current < n && box >= 0
  }

  /** Whether a key press records an answer. */
  predicate KeyAnswers(s: Session, key: string)
  {
    s.state == Quiz && !s.lockInput && KeyIndex(key) != -1
  }

  /** The events of the sketch's input and frame loop. */
  datatype Event =
    | PointerDown(onStart: bool, box: int)
    | KeyDownEvent(key: string)
    | KeyTypedEvent(key: string)
    | Frame

  /** A pointer event can only name one of the four boxes or none. */
  predicate EventOk(e: Event)
  {
    e.PointerDown? ==> -1 <= e.box < 4
  }

  /** One event applied to the session. Frames change the session only on the quiz screen. */
  function Step(s: Session, e: Event, qs: seq<Question>): (r: Session)
    requires e.KeyDownEvent? ==> CurrentInRange(s, |qs|)
    ensures Inv(s, |qs|) && EventOk(e) ==> Inv(r, |qs|)
  {
    match e
    case PointerDown(onStart, box) => Press(s, onStart, box, qs)
    case KeyDownEvent(key) => KeyDown(s, key, qs)
    case KeyTypedEvent(key) => KeyTyped(s, key)
    case Frame => FrameStep(s, |qs|)
  }

  /** A frame: only the quiz screen has a countdown to run. */
  function FrameStep(s: Session, n: nat): (r: Session)
    ensures Inv(s, n) ==> Inv(r, n)
  {
    if s.state == Quiz then QuizFrame(s, n) else s
  }

  /** A sequence of events applied in order; the invariant holds all the way. */
  function Run(s: Session, es: seq<Event>, qs: seq<Question>): (r: Session)
    requires Inv(s, |qs|)
    requires forall k :: 0 <= k < |es| ==> EventOk(es[k])
    ensures Inv(r, |qs|)
    decreases |es|
  {
    if es == [] then s else Run(Step(s, es[0], qs), es[1..], qs)
  }

  lemma {:induction false} RunConcat(s: Session, a: seq<Event>, b: seq<Event>, qs: seq<Question>)
    requires Inv(s, |qs|)
    requires forall k :: 0 <= k < |a| ==> EventOk(a[k])
    requires forall k :: 0 <= k < |b| ==> EventOk(b[k])
    ensures forall k :: 0 <= k < |a + b| ==> EventOk((a + b)[k])
    ensures Run(s, a + b, qs) == Run(Run(s, a, qs), b, qs)
    decreases |a|
  {
    assert forall k :: 0 <= k < |a + b| ==> EventOk((a + b)[k]) by {
      forall k | 0 <= k < |a + b| ensures EventOk((a + b)[k]) {
        if k < |a| { assert (a + b)[k] == a[k]; } else { assert (a + b)[k] == b[k - |a|]; }
      }
    }
    if a == [] {
      assert a + b == b;
    } else {
      assert (a + b)[0] == a[0];
      assert (a + b)[1..] == a[1..] + b;
      assert forall k :: 0 <= k < |a[1..]| ==> a[1..][k] == a[k + 1];
      RunConcat(Step(s, a[0], qs), a[1..], b, qs);
    }
  }

  // ---------------------------------------------------------------------------------------
  // Properties of single events

  /** Start fires only from the intro on the start control, and restart only from the result
      screen on r or R; both leave every counter at its initial value. */
  lemma ResetTransitions(s: Session, onStart: bool, box: int, key: string, qs: seq<Question>)
    ensures Press(s, onStart, box, qs) == Fresh(Quiz) <== s.state == Intro && onStart
    ensures s.state != Quiz && !(s.state == Intro && onStart) ==> Press(s, onStart, box, qs) == s
    ensures s.state == Result && (key == "r" || key == "R") ==> KeyTyped(s, key) == Fresh(Intro)
    ensures KeyTyped(s, key) != s ==> s.state == Result && (key == "r" || key == "R")
  {
  }

  /** An answer on an unanswered question records the option, locks input, starts the
      45-frame countdown, and adds one point exactly when the option is the right one; every
      other answer attempt leaves the session as it was. */
  lemma AnswerRecording(s: Session, i: int, key: string, qs: seq<Question>)
    requires Inv(s, |qs|) && 0 <= i < 4
    ensures var r := Press(s, false, i, qs);
      if s.state == Quiz && !s.lockInput then
        r.selectedIndex == i && r.lockInput && r.feedbackTimer == 45 && r.current == s.current
        && (r.score == s.score + 1 <==> i == qs[s.current].correct)
        && (r.score == s.score <==> i != qs[s.current].correct)
      else r == s
    ensures var r := KeyDown(s, key, qs);
      if s.state == Quiz && !s.lockInput && KeyIndex(key) != -1 then
        r.selectedIndex == KeyIndex(key) && r.lockInput && r.feedbackTimer == 45
        && (r.score == s.score + 1 <==> KeyIndex(key) == qs[s.current].correct)
      else r == s
  {
  }

  /** While input is locked no pointer press or key changes the session, so a question is
      scored at most once. */
  lemma LockedIgnoresAnswers(s: Session, onStart: bool, box: int, key: string, qs: seq<Question>)
    requires Inv(s, |qs|) && s.lockInput
    ensures Press(s, onStart, box, qs) == s
    ensures KeyDown(s, key, qs) == s
  {
  }

  /** The key shortcut is the pointer answer: within the invariant, the missing index check
      of the key handler makes no difference. */
  lemma KeyMatchesPointer(s: Session, key: string, qs: seq<Question>)
    requires Inv(s, |qs|) && KeyIndex(key) != -1
    ensures KeyDown(s, key, qs) == Press(s, false, KeyIndex(key), qs)
  {
  }

  /** The score never decreases, except when a start or a restart resets it. */
  lemma ScoreMonotone(s: Session, e: Event, qs: seq<Question>)
    requires Inv(s, |qs|) && EventOk(e)
    ensures var r := Step(s, e, qs);
      r.score >= s.score
      || (e.PointerDown? && r == Fresh(Quiz)) || (e.KeyTypedEvent? && r == Fresh(Intro))
  {
  }

  /** A quiz frame with the countdown running takes exactly one frame off it; a frame with
      no countdown changes nothing; the frame on which it expires advances by exactly one
      question and enters the result screen exactly when no question is left. */
  lemma FrameCountdown(s: Session, n: int)
    requires Inv(s, n) && s.state == Quiz
    ensures s.feedbackTimer == 0 ==> QuizFrame(s, n) == s
    ensures s.feedbackTimer > 1 ==> QuizFrame(s, n) == s.(feedbackTimer := s.feedbackTimer - 1)
    ensures s.feedbackTimer == 1 ==>
      var r := QuizFrame(s, n);
      r.current == s.current + 1 && r.score == s.score && r.selectedIndex == -1
      && !r.lockInput && r.feedbackTimer == 0
      && (r.state == Result <==> r.current == n)
      && (r.state != Result ==> r.state == Quiz)
  {
  }

  /** k frames with nothing else happening. */
  function Frames(k: nat): (es: seq<Event>)
    ensures |es| == k && forall j :: 0 <= j < k ==> es[j] == Frame
  {
    seq(k, _ => Frame)
  }

  /** The session after the countdown of its current answer has run out: the last frame
      of a countdown, taken from its final tick. */
  function Advanced(s: Session, n: int): Session
  {
    Countdown(s.(feedbackTimer := 1), n)
  }

  /** For the first t - 1 frames of a countdown of t, only the countdown moves; the t-th frame
      advances the quiz, once. */
  lemma {:induction false} CountdownRuns(s: Session, k: nat, qs: seq<Question>)
    requires Inv(s, |qs|) && s.state == Quiz && s.lockInput
    ensures k < s.feedbackTimer ==> Run(s, Frames(k), qs) == s.(feedbackTimer := s.feedbackTimer - k)
    ensures k == s.feedbackTimer ==> Run(s, Frames(k), qs) == Advanced(s, |qs|)
    decreases k
  {
    if k > 0 && k <= s.feedbackTimer {
      var s1 := Step(s, Frame, qs);
      assert Frames(k) == [Frame] + Frames(k - 1);
      assert Run(s, Frames(k), qs) == Run(s1, Frames(k - 1), qs);
      if s.feedbackTimer == 1 {
        assert s1 == Advanced(s, |qs|);
        assert Frames(0) == [];
      } else {
        assert s1 == s.(feedbackTimer := s.feedbackTimer - 1);
        CountdownRuns(s1, k - 1, qs);
      }
    } else if k == 0 {
      assert Frames(0) == [];
    }
  }

  /** One turn of play: answer with option c, then wait out the feedback. */
  function Turn(c: int): seq<Event>
  {
    [PointerDown(false, c)] + Frames(NextDelayFrames)
  }

  /** Turns for a sequence of chosen options, one per question. */
  function Play(cs: seq<int>): seq<Event>
  {
    if cs == [] then [] else Turn(cs[0]) + Play(cs[1..])
  }

  /** How many of the choices are right, the k-th choice answering question from + k. */
  function CountCorrect(cs: seq<int>, qs: seq<Question>, from: nat): nat
    requires from + |cs| <= |qs|
  {
    if cs == [] then 0
    else (if cs[0] == qs[from].correct then 1 else 0) + CountCorrect(cs[1..], qs, from + 1)
  }

  predicate ChoicesOk(cs: seq<int>)
  {
    forall k :: 0 <= k < |cs| ==> 0 <= cs[k] < 4
  }

  lemma {:induction false} PlayEventsOk(cs: seq<int>)
    requires ChoicesOk(cs)
    ensures forall k :: 0 <= k < |Play(cs)| ==> EventOk(Play(cs)[k])
  {
    if cs != [] {
      assert forall k :: 0 <= k < |cs[1..]| ==> cs[1..][k] == cs[k + 1];
      PlayEventsOk(cs[1..]);
      var a, b := Turn(cs[0]), Play(cs[1..]);
      forall k | 0 <= k < |a + b| ensures EventOk((a + b)[k]) {
        if k < |a| {
          assert (a + b)[k] == a[k];
          if k > 0 { assert a[k] == Frames(NextDelayFrames)[k - 1]; }
        } else {
          assert (a + b)[k] == b[k - |a|];
        }
      }
    }
  }

  /** A turn on an unanswered question moves the quiz on by one question and adds one point
      exactly when the choice is right. */
  lemma TurnAdvances(s: Session, c: int, qs: seq<Question>)
    requires Inv(s, |qs|) && s.state == Quiz && !s.lockInput && 0 <= c < 4
    ensures forall k :: 0 <= k < |Turn(c)| ==> EventOk(Turn(c)[k])
    ensures Run(s, Turn(c), qs)
         == Advanced(s.(score := if c == qs[s.current].correct then s.score + 1 else s.score), |qs|)
  {
    var s1 := Step(s, PointerDown(false, c), qs);
    assert forall k :: 0 <= k < NextDelayFrames ==> Frames(NextDelayFrames)[k] == Frame;
    RunConcat(s, [PointerDown(false, c)], Frames(NextDelayFrames), qs);
    assert Run(s, [PointerDown(false, c)], qs) == s1;
    CountdownRuns(s1, NextDelayFrames, qs);
  }

  /** Playing out the remaining questions from an unanswered one ends on the result screen,
      with one point added per right choice. */
  lemma {:induction false} PlayScores(s: Session, cs: seq<int>, qs: seq<Question>)
    requires Inv(s, |qs|) && s.state == Quiz && !s.lockInput
    requires ChoicesOk(cs) && |cs| == |qs| - s.current
    ensures forall k :: 0 <= k < |Play(cs)| ==> EventOk(Play(cs)[k])
    ensures Run(s, Play(cs), qs)
         == Session(Result, |qs|, s.score + CountCorrect(cs, qs, s.current), -1, false, 0)
    decreases |cs|
  {
    PlayEventsOk(cs);
    var c := cs[0];
    TurnAdvances(s, c, qs);
    assert forall k :: 0 <= k < |cs[1..]| ==> cs[1..][k] == cs[k + 1];
    PlayEventsOk(cs[1..]);
    RunConcat(s, Turn(c), Play(cs[1..]), qs);
    var s1 := Run(s, Turn(c), qs);
    if |cs| == 1 {
      assert cs[1..] == [];
      assert Play(cs[1..]) == [];
    } else {
      PlayScores(s1, cs[1..], qs);
    }
  }

  /** The scenario of a perfect run: start, answer every question right, and the quiz ends
      on the result screen with the full score; R then returns to the intro with all counters
      reset. */
  lemma PerfectRun(qs: seq<Question>, cs: seq<int>)
    requires |qs| > 0 && ChoicesOk(cs) && |cs| == |qs|
    requires forall k :: 0 <= k < |qs| ==> cs[k] == qs[k].correct
    ensures forall k :: 0 <= k < |Play(cs)| ==> EventOk(Play(cs)[k])
    ensures Run(Fresh(Quiz), Play(cs), qs) == Session(Result, |qs|, |qs|, -1, false, 0)
    ensures KeyTyped(Run(Fresh(Quiz), Play(cs), qs), "R") == Fresh(Intro)
  {
    PlayScores(Fresh(Quiz), cs, qs);
    AllCorrect(cs, qs, 0);
  }

  lemma {:induction false} AllCorrect(cs: seq<int>, qs: seq<Question>, from: nat)
    requires from + |cs| <= |qs|
    requires forall k :: 0 <= k < |cs| ==> cs[k] == qs[from + k].correct
    ensures CountCorrect(cs, qs, from) == |cs|
    decreases |cs|
  {
    if cs != [] {
      assert forall k :: 0 <= k < |cs[1..]| ==> cs[1..][k] == cs[k + 1];
      AllCorrect(cs[1..], qs, from + 1);
    }
  }
}
