/** The text of hangup causes and of background job results, and the verdict that a cause leads to. */
module HangupCauses {
  import opened Options
  import opened Text
  import opened CallRows
  import opened ProviderEvents

  // --------------------------------------------------------------------- the normal form

  lemma {:induction false} RunAlone(run: string, rest: string)
    requires run != [] && forall i :: 0 <= i < |run| ==> IsSeparator(run[i])
    requires rest != [] ==> !IsSeparator(rest[0])
    ensures Underscored(run + rest) == "_" + Underscored(rest)
  {
    assert (run + rest)[1..] == run[1..] + rest;
    if |run| > 1 {
      assert (run + rest)[1] == run[1];
      RunAlone(run[1..], rest);
    } else {
      assert run[1..] + rest == rest;
    }
  }

  lemma {:induction false} WordStays(word: string, rest: string)
    requires forall i :: 0 <= i < |word| ==> !IsSeparator(word[i])
    ensures Underscored(word + rest) == word + Underscored(rest)
  {
    if word == [] {
      assert word + rest == rest;
    } else {
      assert (word + rest)[1..] == word[1..] + rest;
      WordStays(word[1..], rest);
    }
  }

  /** A word, a run of white space, points and dashes, and what follows: the run becomes one underscore. */
  lemma RunBecomesUnderscore(word: string, run: string, rest: string)
    requires forall i :: 0 <= i < |word| ==> word[i] !in " \t\n\r.-" && word[i] as int !in {11, 12}
    requires run != [] && forall i :: 0 <= i < |run| ==> run[i] in " \t\n\r.-" || run[i] as int in {11, 12}
    requires rest != [] ==> rest[0] !in " \t\n\r.-" && rest[0] as int !in {11, 12}
    ensures Underscored(word + (run + rest)) == word + "_" + Underscored(rest)
  {
    RunAlone(run, rest);
    WordStays(word, run + rest);
    hide Underscored;
    assert word + ("_" + Underscored(rest)) == word + "_" + Underscored(rest);
  }

  lemma {:induction false} UnderscoredHasNone(s: string)
    ensures forall i :: 0 <= i < |Underscored(s)| ==> !IsSeparator(Underscored(s)[i])
    ensures s != [] ==> Underscored(s) != []
  {
    if s != [] {
      UnderscoredHasNone(s[1..]);
    }
  }

  lemma NothingToTrim(s: string)
    requires forall i :: 0 <= i < |s| ==> !IsSpace(s[i])
    ensures Trim(s) == s
  {
  }

  lemma NoSeparators(s: string)
    requires forall i :: 0 <= i < |s| ==> !IsSeparator(s[i])
    ensures Underscored(s) == s
  {
    WordStays(s, []);
    assert s + [] == s;
  }

  /** A cause that has been normalized is its own normal form. */
  lemma NormalizeTwice(cause: Option<string>)
    ensures NormalizeCause(NormalizeCause(cause)) == NormalizeCause(cause)
  {
    if NormalizeCause(cause).Some? {
      var u := Underscored(Trim(cause.value));
      UnderscoredHasNone(Trim(cause.value));
      assert Upper(Upper(u)) == Upper(u);
      assert forall i :: 0 <= i < |u| ==> !IsSeparator(Upper(u)[i]);
      NothingToTrim(Upper(u));
      NoSeparators(Upper(u));
    }
  }

  lemma NormalCause(s: string)
    requires s != [] && forall i :: 0 <= i < |s| ==> s[i] == '_' || 'A' <= s[i] <= 'Z'
    ensures NormalizeCause(Some(s)) == Some(s)
  {
    assert Trim(s) == s;
    NoSeparators(s);
    assert Upper(s) == s;
  }

  // --------------------------------------------------------------------- the verdict

  // The tables of causes, written out once more as the reference for the sets in use.

  /** The normal form of the cause is one of these. */
  predicate Means(cause: Option<string>, words: set<string>) {
    NormalizeCause(cause).Some? && NormalizeCause(cause).value in words
  }

  predicate TechnicalFailure(cause: Option<string>) {
    Means(cause, {"DESTINATION_OUT_OF_ORDER", "NETWORK_OUT_OF_ORDER", "NORMAL_TEMPORARY_FAILURE",
                  "RECOVERY_ON_TIMER_EXPIRE", "REQUESTED_CHAN_UNAVAIL", "SWITCH_CONGESTION",
                  "INVALID_NUMBER_FORMAT", "NO_ROUTE_DESTINATION", "UNALLOCATED_NUMBER", "USER_NOT_REGISTERED",
                  "NO_ROUTE", "BEARERCAPABILITY_NOTAVAIL", "INCOMPATIBLE_DESTINATION", "PROTOCOL_ERROR",
                  "MEDIA_ERROR", "MEDIA_TIMEOUT", "AUDIO_FORK_ERROR", "BACKGROUND_JOB_FAILED",
                  "EVENT_LOSS_RECONCILED"})
  }

  predicate NobodyAnswered(cause: Option<string>) {
    Means(cause, {"CALL_REJECTED", "NO_ANSWER", "NORMAL_CLEARING", "ORIGINATOR_CANCEL", "SUBSCRIBER_ABSENT",
                  "USER_BUSY", "NO_USER_RESPONSE"})
  }

  /** How a call ends: a technical failure fails it even when it was answered; an answered call is completed; an
    * unanswered one is one that nobody answered, or failed if the cause does not say so. */
  predicate Verdict(cause: Option<string>, answered: bool, s: Status) {
    && (s == Completed <==> answered && !TechnicalFailure(cause))
    && (s == NoAnswer <==> !answered && NobodyAnswered(cause))
    && (s == Failed <==> TechnicalFailure(cause) || (!answered && !NobodyAnswered(cause)))
  }

  /** The two tables of causes have nothing in common, so there is exactly one verdict. */
  lemma OneVerdict(cause: Option<string>, answered: bool)
    ensures !(TechnicalFailure(cause) && NobodyAnswered(cause))
    ensures Verdict(cause, answered, TerminalStatus(cause, answered))
    ensures IsFatal(cause) <==> TechnicalFailure(cause)
  {
    NormalizeTwice(cause);
    hide NormalizeCause;
  }

  lemma VerdictOfNormalForm(cause: Option<string>, answered: bool)
    ensures Verdict(cause, answered, TerminalStatus(NormalizeCause(cause), answered))
    ensures Verdict(cause, answered, ClosingStatus(NormalizeCause(cause), answered))
  {
    NormalizeTwice(cause);
    OneVerdict(cause, answered);
    OneVerdict(NormalizeCause(cause), answered);
    hide NormalizeCause;
  }

  // --------------------------------------------------------------- background job results

  /** A result reports a failure exactly if it says `-ERR`, in any case, followed by white space or nothing. The
    * cause is the rest of it, unless that is empty or unknown. */
  lemma JobFailureIff(result: Option<string>)
    ensures JobFailure(result).Some? <==>
      && result.Some?
      && var text := Trim(result.value);
        && |text| >= 4 && text[0] == '-' && text[1] in "eE" && text[2] in "rR" && text[3] in "rR"
        && (|text| == 4 || text[4] in " \t\n\r" || text[4] as int in {11, 12})
    ensures JobFailure(result).Some? ==>
      var rest := NormalizeCause(Some(Trim(result.value)[4..]));
      JobFailure(result).value ==
        if rest.None? || rest.value == "UNKNOWN" then "BACKGROUND_JOB_FAILED" else rest.value
  {
    if result.Some? && |Trim(result.value)| >= 4 {
      var head := Trim(result.value)[..4];
      assert Upper(head) == "-ERR" <==> head[0] == '-' && head[1] in "eE" && head[2] in "rR" && head[3] in "rR" by {
        assert Upper(head) == [UpperChar(head[0]), UpperChar(head[1]), UpperChar(head[2]), UpperChar(head[3])];
      }
    }
    hide NormalizeCause, Trim, Upper;
  }
}
