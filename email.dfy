/** The decision rules of MailHandling/Email.py: reading the overall score of a
    call analysis, choosing the feedback and closing by score band, the
    optional block of additional details, the subject line, and the choice of
    recipients. Sending the message over SMTP is outside the model; the three
    recipient lists are named, not spelled out. Python's `float()` and `str()`
    are parameters. */
module Email {
  import opened Common
  import opened JsonValues

  const RatingKey := "Sales Pitch Rating"
  const OverallKey := "overall"
  const ScoreKey := "score"
  const InterestKey := "Customer Interest"
  const MissedKey := "Missed Opportunity"
  const NegativeKey := "Negative Sentiment"
  const SentimentKey := "Customer Sentiment"
  const PurposeKey := "Call Purpose"

  const SubjectPrefix := "Customer Interaction Report - Score: "
  const Greeting := "<p>Hello Team,</p><br>"
  const DetailsHeader := "<p><b>Additional Details:</b></p><ul>"
  const DetailsFooter := "</ul><br>"

  // ---------------------------------------------------------------------
  // The score (MailHandling/Email.py:19 and 99)
  // ---------------------------------------------------------------------

  /** The text in front of the first slash of the nested score, with "0" for a
      missing level; None where a level is not an object or the score is not a
      string, on which the `.get` or `.split` call raises. */
  function ScoreText(data: seq<(string, Json)>): Option<string>
  {
    var rating := GetOr(data, RatingKey, JObject([]));
    if !rating.JObject? then None
    else
      var overall := GetOr(rating.fields, OverallKey, JObject([]));
      if !overall.JObject? then None
      else
        var score := GetOr(overall.fields, ScoreKey, JString("0"));
        if !score.JString? then None else Some(SplitOn(score.s, '/')[0])
  }

  /** The score as a number; None when reading or `float()` fails. */
  function ExtractScore(data: seq<(string, Json)>, parseFloat: string -> Option<real>): Option<real>
  {
    match ScoreText(data)
    case None => None
    case Some(t) => parseFloat(t)
  }

  /** A missing "Sales Pitch Rating", "overall" or "score" reads as the text "0", so
      the score is 0 whenever `float("0")` is 0. */
  lemma MissingScoreIsZero(data: seq<(string, Json)>, rating: seq<(string, Json)>, overall: seq<(string, Json)>,
                           parseFloat: string -> Option<real>)
    requires parseFloat("0") == Some(0.0)
    requires || !HasKey(data, RatingKey)
             || (Get(data, RatingKey) == Some(JObject(rating)) && !HasKey(rating, OverallKey))
             || (Get(data, RatingKey) == Some(JObject(rating)) && Get(rating, OverallKey) == Some(JObject(overall))
                 && !HasKey(overall, ScoreKey))
    ensures ScoreText(data) == Some("0")
    ensures ExtractScore(data, parseFloat) == Some(0.0)
  {
    assert Lacks("0", '/');
    SplitOnLacking("0", '/');
  }

  /** A score written "n/10" is read as the text n. */
  lemma ScoreBeforeSlash(data: seq<(string, Json)>, rating: seq<(string, Json)>, overall: seq<(string, Json)>,
                         n: string, rest: string)
    requires Lacks(n, '/')
    requires Get(data, RatingKey) == Some(JObject(rating))
    requires Get(rating, OverallKey) == Some(JObject(overall))
    requires Get(overall, ScoreKey) == Some(JString(n + "/" + rest))
    ensures ScoreText(data) == Some(n)
  {
    assert n + "/" + rest == n + ['/'] + rest;
    SplitOnFirstPiece(n, '/', rest);
  }

  // ---------------------------------------------------------------------
  // The email content (MailHandling/Email.py:16-52)
  // ---------------------------------------------------------------------

  datatype Band = Positive | Average | Low

  /** MailHandling/Email.py:28-36. */
  function BandOf(score: real): (b: Band)
    ensures b == Positive <==> score > 7.0
    ensures b == Average <==> 4.0 <= score <= 7.0
    ensures b == Low <==> score < 4.0
  {
    if score > 7.0 then Positive
    else if 4.0 <= score <= 7.0 then Average
    else Low
  }

  function Feedback(b: Band): string
  {
    match b
    case Positive => "<p>The call was received positively and indicates strong interest from the customer.</p><br>"
    case Average => "<p>The call received an average score, indicating that while there was interest, there may be areas to improve.</p><br>"
    case Low => "<p>The call received a low score, which may suggest dissatisfaction or unresolved concerns.</p><br>"
  }

  function Closing(b: Band): string
  {
    match b
    case Positive => "<p>This is a great opportunity to maintain positive momentum. Keep up the excellent work!</p><br><p>Best Regards,<br>Your Team</p>"
    case Average => "<p>Consider reviewing the interaction report below to identify any opportunities for further engagement.</p><br><p>Best Regards,<br>Your Team</p>"
    case Low => "<p>Please prioritize a follow-up with the client to address any potential issues.</p><br><p>Best Regards,<br>Your Team</p>"
  }

  /** One item of the additional-details list, holding the `str()` of its value. */
  datatype Detail = CustomerInterest(text: string) | MissedOpportunity(text: string) | NegativeSentiment(text: string)

  function Rank(d: Detail): nat
  {
    match d
    case CustomerInterest(_) => 0
    case MissedOpportunity(_) => 1
    case NegativeSentiment(_) => 2
  }

  /** MailHandling/Email.py:42-47: the items, in the order the checks run. */
  function DetailItems(data: seq<(string, Json)>, score: real, show: Json -> string): seq<Detail>
  {
    (match Get(data, InterestKey) case Some(v) => [CustomerInterest(show(v))] case None => [])
    + (match Get(data, MissedKey) case Some(v) => [MissedOpportunity(show(v))] case None => [])
    + (match Get(data, NegativeKey) case Some(v) => if score <= 7.0 then [NegativeSentiment(show(v))] else []
       case None => [])
  }

  function RenderDetail(d: Detail): string
  {
    match d
    case CustomerInterest(t) => "<li><u>Customer Interest:</u> " + t + "</li>"
    case MissedOpportunity(t) => "<li><u>Missed Opportunity</u>: " + t + "</li>"
    case NegativeSentiment(t) => "<li><u>Negative Sentiment</u>: " + t + "</li>"
  }

  function RenderDetails(items: seq<Detail>): string
  {
    if items == [] then "" else RenderDetails(items[..|items| - 1]) + RenderDetail(items[|items| - 1])
  }

  /** MailHandling/Email.py:39-48. */
  function AdditionalDetails(data: seq<(string, Json)>, score: real, show: Json -> string): string
  {
    if HasKey(data, InterestKey) || HasKey(data, MissedKey) || (HasKey(data, NegativeKey) && score <= 7.0) then
      DetailsHeader + RenderDetails(DetailItems(data, score, show)) + DetailsFooter
    else ""
  }

  /** The details block appears exactly when there is an item to put in it, that is
      when "Customer Interest" or "Missed Opportunity" is present, or "Negative
      Sentiment" is present and the score is at most 7; the block is then the
      rendered items between the header and the footer. */
  lemma DetailsPresence(data: seq<(string, Json)>, score: real, show: Json -> string)
    ensures var items := DetailItems(data, score, show);
      && (AdditionalDetails(data, score, show) != "" <==> items != [])
      && (items != [] <==> HasKey(data, InterestKey) || HasKey(data, MissedKey) || (HasKey(data, NegativeKey) && score <= 7.0))
      && (items != [] ==> AdditionalDetails(data, score, show) == DetailsHeader + RenderDetails(items) + DetailsFooter)
  {
  }

  /** The "Negative Sentiment" item is listed exactly when that key is present and
      the score is at most 7; each item appears at most once, in the fixed order
      interest, missed opportunity, negative sentiment. */
  lemma DetailItemsShape(data: seq<(string, Json)>, score: real, show: Json -> string)
    ensures var items := DetailItems(data, score, show);
      && ((exists i :: 0 <= i < |items| && items[i].NegativeSentiment?) <==> HasKey(data, NegativeKey) && score <= 7.0)
      && (forall i, j :: 0 <= i < j < |items| ==> Rank(items[i]) < Rank(items[j]))
  {
    var items := DetailItems(data, score, show);
    if HasKey(data, NegativeKey) && score <= 7.0 {
      assert items[|items| - 1].NegativeSentiment?;
    }
  }

  /** MailHandling/Email.py:24-25: the call purpose as given, or "Not specified". */
  function ScoreInfo(data: seq<(string, Json)>, score: real, show: Json -> string, showScore: real -> string): string
  {
    var purpose := match Get(data, PurposeKey) case Some(v) => show(v) case None => "Not specified";
    "<p>" + purpose + "</p>" + "<p><b>The call has been rated with a score of " + showScore(score) + "/10</b>.</p>"
  }

  /** MailHandling/Email.py:51. */
  function Body(data: seq<(string, Json)>, score: real, show: Json -> string, showScore: real -> string): string
  {
    Greeting + ScoreInfo(data, score, show, showScore) + Feedback(BandOf(score))
      + AdditionalDetails(data, score, show) + Closing(BandOf(score))
  }

  /** MailHandling/Email.py:16-52: the subject and the body, or None when the score
      cannot be read. A readable score always gives a message: its subject starts
      with the fixed prefix, its body starts with the greeting, holds the band's
      feedback and ends with the band's closing. */
  function BuildEmailContent(data: seq<(string, Json)>, parseFloat: string -> Option<real>,
                             show: Json -> string, showScore: real -> string): (m: Option<(string, string)>)
    ensures m.Some? <==> ExtractScore(data, parseFloat).Some?
    ensures m.Some? ==>
      var b := BandOf(ExtractScore(data, parseFloat).value);
      && StartsWith(m.value.0, SubjectPrefix)
      && StartsWith(m.value.1, Greeting)
      && Contains(m.value.1, Feedback(b))
      && EndsWith(m.value.1, Closing(b))
  {
    match ExtractScore(data, parseFloat)
    case None => None
    case Some(score) =>
      var b := BandOf(score);
      BodyParts(Greeting, ScoreInfo(data, score, show, showScore), Feedback(b),
                AdditionalDetails(data, score, show), Closing(b));
      BodyParts(SubjectPrefix, showScore(score), "", "", "");
      Some((SubjectPrefix + showScore(score), Body(data, score, show, showScore)))
  }

  /** A body put together from five parts starts with the first, holds the third
      and ends with the last. */
  lemma BodyParts(g: string, s: string, f: string, d: string, c: string)
    ensures var body := g + s + f + d + c;
      StartsWith(body, g) && Contains(body, f) && EndsWith(body, c)
  {
    var body := g + s + f + d + c;
    var head := g + s;
    assert body == head + f + (d + c);
    assert body[|head|..|head| + |f|] == f;
    ContainsAt(body, f, |head|);
    assert body[..|g|] == g;
    assert body == (g + s + f + d) + c;
  }

  // ---------------------------------------------------------------------
  // Recipients (MailHandling/Email.py:54-64)
  // ---------------------------------------------------------------------

  /** The three fixed address lists. */
  datatype Recipients = Managers | Salespeople | ManagersAndSalesperson

  /** The lower-cased "Customer Sentiment", "" when absent; None when it is not a
      string, on which `.lower()` raises. */
  function SentimentText(data: seq<(string, Json)>): Option<string>
  {
    var v := GetOr(data, SentimentKey, JString(""));
    if v.JString? then Some(Lower(v.s)) else None
  }

  /** MailHandling/Email.py:54-64: the checks run in order, so a positive sentiment
      goes to the managers even with a low score, and a negative one only decides
      when the score is at most 7 and the sentiment is not also positive. */
  function DetermineRecipients(data: seq<(string, Json)>, score: real): (r: Option<Recipients>)
    ensures r.Some? <==> SentimentText(data).Some?
    ensures r == Some(Managers) <==>
      SentimentText(data).Some? && (score > 7.0 || Contains(SentimentText(data).value, "positive"))
    ensures r == Some(Salespeople) <==>
      && SentimentText(data).Some?
      && !(score > 7.0 || Contains(SentimentText(data).value, "positive"))
      && (score <= 4.0 || Contains(SentimentText(data).value, "negative"))
    ensures r == Some(ManagersAndSalesperson) <==>
      && SentimentText(data).Some?
      && !(score > 7.0 || Contains(SentimentText(data).value, "positive"))
      && !(score <= 4.0 || Contains(SentimentText(data).value, "negative"))
  {
    match SentimentText(data)
    case None => None
    case Some(sentiment) =>
      if score > 7.0 || Contains(sentiment, "positive") then Some(Managers)
      else if score <= 4.0 || Contains(sentiment, "negative") then Some(Salespeople)
      else Some(ManagersAndSalesperson)
  }

  /** A score of exactly 4 with a sentiment that is neither positive nor negative
      gets the average feedback but goes to the salespeople. */
  lemma ScoreFourNeutral(data: seq<(string, Json)>)
    requires SentimentText(data).Some?
    requires !Contains(SentimentText(data).value, "positive") && !Contains(SentimentText(data).value, "negative")
    ensures BandOf(4.0) == Average
    ensures DetermineRecipients(data, 4.0) == Some(Salespeople)
  {
  }

  /** MailHandling/Email.py:97-107: the recipients, subject and body handed to the
      sender, or None when reading the score or the sentiment raises. The message
      sent is the built content addressed by the recipient rules, with the same
      score used for both. */
  function ProcessAndSendEmail(data: seq<(string, Json)>, parseFloat: string -> Option<real>,
                               show: Json -> string, showScore: real -> string): (sent: Option<(Recipients, string, string)>)
    ensures sent.None? <==>
      || ExtractScore(data, parseFloat).None?
      || DetermineRecipients(data, ExtractScore(data, parseFloat).value).None?
    ensures sent.Some? ==>
      && Some(sent.value.0) == DetermineRecipients(data, ExtractScore(data, parseFloat).value)
      && BuildEmailContent(data, parseFloat, show, showScore) == Some((sent.value.1, sent.value.2))
  {
    match ExtractScore(data, parseFloat)
    case None => None
    case Some(score) =>
      match DetermineRecipients(data, score)
      case None => None
      case Some(to) =>
        Some((to, SubjectPrefix + showScore(score), Body(data, score, show, showScore)))
  }
}
