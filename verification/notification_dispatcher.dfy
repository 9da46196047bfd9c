/**
 The dispatcher (`SendMessage`): the resolved address has its space
 characters removed and the summary is published to it once; a publish
 error is caught and does not leave the dispatcher.
 */
module NotificationDispatcher {

  /** The address with every U+0020 space removed. Only the space character is
      removed: tabs, newlines and other whitespace stay where they are. */
  function StripSpaces(s: string): (r: string)
    ensures ' ' !in r
    ensures |r| <= |s|
    decreases |s|
  {
    if s == [] then ""
    else if s[0] == ' ' then StripSpaces(s[1..])
    else [s[0]] + StripSpaces(s[1..])
  }

  /** Every character other than a space keeps its number of occurrences, and
      the result is exactly as much shorter as there were spaces. */
  lemma {:induction false} StripSpacesKeepsOtherCharacters(s: string)
    ensures forall c :: c != ' ' ==> multiset(StripSpaces(s))[c] == multiset(s)[c]
    ensures |StripSpaces(s)| == |s| - multiset(s)[' ']
    decreases |s|
  {
    if s != [] {
      assert s == [s[0]] + s[1..];
      StripSpacesKeepsOtherCharacters(s[1..]);
    }
  }

  /** The remaining characters keep their relative order. */
  lemma {:induction false} StripSpacesKeepsOrder(s: string)
    ensures IsSubsequence(StripSpaces(s), s)
    decreases |s|
  {
    if s != [] {
      StripSpacesKeepsOrder(s[1..]);
      if s[0] != ' ' {
        assert ([s[0]] + StripSpaces(s[1..]))[1..] == StripSpaces(s[1..]);
      }
    }
  }

  /** `t` is obtained from `s` by deleting characters, the rest keeping their
      relative order. */
  predicate IsSubsequence(t: string, s: string)
    decreases |s|
  {
    if t == [] then true
    else if s == [] then false
    else if t[0] == s[0] then IsSubsequence(t[1..], s[1..])
    else IsSubsequence(t, s[1..])
  }

  /** A subsequence holds no more of any character than the whole. */
  lemma {:induction false} SubsequenceMultiset(t: string, s: string)
    requires IsSubsequence(t, s)
    ensures multiset(t) <= multiset(s)
    decreases |s|
  {
    if t != [] && s != [] {
      assert s == [s[0]] + s[1..];
      if t[0] == s[0] {
        assert t == [t[0]] + t[1..];
        SubsequenceMultiset(t[1..], s[1..]);
      } else {
        SubsequenceMultiset(t, s[1..]);
      }
    }
  }

  /** The three properties of the normalised address determine it: any
      space-free subsequence of `s` that keeps every other character of `s`
      is `StripSpaces(s)`. */
  lemma {:induction false} StripSpacesIsDetermined(s: string, t: string)
    requires ' ' !in t
    requires IsSubsequence(t, s)
    requires forall c :: c != ' ' ==> multiset(t)[c] == multiset(s)[c]
    ensures t == StripSpaces(s)
    decreases |s|
  {
    if s == [] {
    } else if t == [] {
      StripSpacesKeepsOtherCharacters(s);
      var r := StripSpaces(s);
      forall c ensures multiset(r)[c] == 0 {
        if c != ' ' {
          assert multiset(t)[c] == 0;
        }
      }
      assert multiset(r) == multiset{};
      assert |r| == |multiset(r)|;
    } else {
      assert s == [s[0]] + s[1..];
      assert t == [t[0]] + t[1..];
      if s[0] == ' ' {
        assert t[0] != s[0];
        assert multiset(s) == multiset{s[0]} + multiset(s[1..]);
        StripSpacesIsDetermined(s[1..], t);
      } else if t[0] == s[0] {
        assert multiset(t) == multiset{t[0]} + multiset(t[1..]);
        assert multiset(s) == multiset{s[0]} + multiset(s[1..]);
        forall c | c != ' ' ensures multiset(t[1..])[c] == multiset(s[1..])[c] {
          assert multiset(t)[c] == multiset(s)[c];
        }
        assert ' ' !in t[1..] by {
          forall i | 0 <= i < |t[1..]| ensures t[1..][i] != ' ' {
            assert t[1..][i] == t[i + 1];
          }
        }
        StripSpacesIsDetermined(s[1..], t[1..]);
      } else {
        SubsequenceMultiset(t, s[1..]);
        assert false;
      }
    }
  }

  /** An address without spaces is left unchanged. */
  lemma {:induction false} NoSpacesUnchanged(s: string)
    requires ' ' !in s
    ensures StripSpaces(s) == s
    decreases |s|
  {
    if s != [] {
      assert ' ' !in s[1..] by {
        forall i | 0 <= i < |s[1..]| ensures s[1..][i] != ' ' {
          assert s[1..][i] == s[i + 1];
        }
      }
      NoSpacesUnchanged(s[1..]);
    }
  }

  /** Normalising twice is normalising once. */
  lemma StripSpacesIdempotent(s: string)
    ensures StripSpaces(StripSpaces(s)) == StripSpaces(s)
  {
    NoSpacesUnchanged(StripSpaces(s));
  }

  /** Normalisation works piecewise over concatenation. */
  lemma {:induction false} StripSpacesAppend(a: string, b: string)
    ensures StripSpaces(a + b) == StripSpaces(a) + StripSpaces(b)
    decreases |a|
  {
    if a == [] {
      assert a + b == b;
    } else {
      assert (a + b)[0] == a[0];
      assert (a + b)[1..] == a[1..] + b;
      StripSpacesAppend(a[1..], b);
    }
  }

  /** A leading space is dropped. */
  lemma LeadingSpaceDropped(s: string)
    ensures StripSpaces(" " + s) == StripSpaces(s)
  {
    assert (" " + s)[0] == ' ' && (" " + s)[1..] == s;
  }

  /** An address with an internal and a trailing space loses both, e.g.
      `"arn:aws:sns: topic "` becomes `"arn:aws:sns:topic"`. */
  lemma InternalAndTrailingSpacesRemoved(head: string, tail: string)
    requires ' ' !in head && ' ' !in tail
    ensures StripSpaces(head + " " + tail + " ") == head + tail
  {
    var rest := tail + " ";
    assert StripSpaces(rest) == tail by {
      StripSpacesAppend(tail, " ");
      NoSpacesUnchanged(tail);
      LeadingSpaceDropped("");
      assert " " + "" == " " && tail + "" == tail;
    }
    assert StripSpaces(" " + rest) == tail by {
      LeadingSpaceDropped(rest);
    }
    assert StripSpaces(head + (" " + rest)) == head + tail by {
      StripSpacesAppend(head, " " + rest);
      NoSpacesUnchanged(head);
    }
    assert head + " " + tail + " " == head + (" " + rest);
  }

  /** Other whitespace is not stripped: a tab survives normalisation. */
  lemma TabIsKept()
    ensures StripSpaces("a\tb c") == "a\tbc"
  {
    assert StripSpaces("a\tb") == "a\tb" by {
      NoSpacesUnchanged("a\tb");
    }
    assert StripSpaces(" c") == "c" by {
      assert " c"[1..] == "c";
      assert "c"[1..] == "";
    }
    assert "a\tb c" == "a\tb" + " c";
    StripSpacesAppend("a\tb", " c");
  }

  /** What the transport did with the one publish request. */
  datatype PublishOutcome = PublishOk | PublishError

  /** The single publish request the dispatcher builds. */
  datatype PublishRequest = PublishRequest(targetArn: string, message: string)

  /** One dispatch: the request sent, and whether it was delivered. A publish
      error is caught here, so the dispatcher itself never fails. */
  datatype Dispatch = Dispatch(request: PublishRequest, delivered: bool)

  /** Builds the request from the raw address and the summary and hands it to
      the transport, whose outcome is `outcome`. */
  function SendMessage(jobUrl: string, results: string, outcome: PublishOutcome): (d: Dispatch)
    ensures ' ' !in d.request.targetArn
    ensures IsSubsequence(d.request.targetArn, jobUrl)
    ensures forall c :: c != ' ' ==> multiset(d.request.targetArn)[c] == multiset(jobUrl)[c]
    ensures d.request.message == results
    ensures d.delivered <==> outcome == PublishOk
  {
    StripSpacesKeepsOtherCharacters(jobUrl);
    StripSpacesKeepsOrder(jobUrl);
    var request := PublishRequest(StripSpaces(jobUrl), results);
    match outcome
    case PublishOk => Dispatch(request, true)
    case PublishError => Dispatch(request, false)
  }
}
