/**
 * The pure part of the comments widget: the relative-time label of a comment
 * and the split of the fetched list into top-level comments and the replies
 * shown under each, one level deep.
 */
module CommentsView {
  import opened Wrappers
  import opened Strings
  import opened CommentStore

  const MS_PER_MINUTE := 60000
  const MS_PER_HOUR := 3600000
  const MS_PER_DAY := 86400000

  /** The bucket `getTimeAgo` puts an age into, with the count it shows. */
  datatype TimeAgo = JustNow | MinutesAgo(minutes: int) | HoursAgo(hours: int) | DaysAgo(days: int)

  /**
   * `getTimeAgo`, on the comment's and the current time in milliseconds. The
   * label is the largest unit the age reaches, counted in whole units; an age
   * under a minute, a negative one included, is "just now".
   */
  function GetTimeAgo(nowMs: int, createdMs: int): (r: TimeAgo)
    ensures var age := nowMs - createdMs;
      && (r.JustNow? <==> age < MS_PER_MINUTE)
      && (r.MinutesAgo? <==> MS_PER_MINUTE <= age < MS_PER_HOUR)
      && (r.HoursAgo? <==> MS_PER_HOUR <= age < MS_PER_DAY)
      && (r.DaysAgo? <==> MS_PER_DAY <= age)
      && (r.MinutesAgo? ==> 1 <= r.minutes <= 59 && r.minutes * MS_PER_MINUTE <= age < (r.minutes + 1) * MS_PER_MINUTE)
      && (r.HoursAgo? ==> 1 <= r.hours <= 23 && r.hours * MS_PER_HOUR <= age < (r.hours + 1) * MS_PER_HOUR)
      && (r.DaysAgo? ==> 1 <= r.days && r.days * MS_PER_DAY <= age < (r.days + 1) * MS_PER_DAY)
  {
    // Math.floor of a division by a positive divisor is Dafny's `/`.
    var diffInMinutes := (nowMs - createdMs) / 60000;
    FloorDivBounds(nowMs - createdMs, diffInMinutes);
    if diffInMinutes < 1 then JustNow
    else if diffInMinutes < 60 then MinutesAgo(diffInMinutes)
    else if diffInMinutes < 1440 then HoursAgo(diffInMinutes / 60)
    else DaysAgo(diffInMinutes / 1440)
  }

  lemma FloorDivBounds(age: int, minutes: int)
    requires minutes == age / 60000
    ensures minutes * 60000 <= age < (minutes + 1) * 60000
    ensures minutes >= 60 ==> (minutes / 60) * 3600000 <= age < (minutes / 60 + 1) * 3600000
    ensures minutes >= 1440 ==> (minutes / 1440) * 86400000 <= age < (minutes / 1440 + 1) * 86400000
  {
    var h := minutes / 60;
    var d := minutes / 1440;
    assert h * 60 <= minutes < h * 60 + 60;
    assert d * 1440 <= minutes < d * 1440 + 1440;
    assert h * 3600000 == (h * 60) * 60000;
    assert d * 86400000 == (d * 1440) * 60000;
  }

  /** The decimal digits JavaScript prints for a non-negative integer. */
  function Decimal(n: nat): (s: string)
    ensures |s| >= 1
    ensures forall i :: 0 <= i < |s| ==> '0' <= s[i] <= '9'
    ensures |s| > 1 ==> s[0] != '0'
  {
    var digit := ['0' + (n % 10) as char];
    if n < 10 then digit else Decimal(n / 10) + digit
  }

  /** The value of a string of decimal digits. */
  function DigitsValue(s: string): nat
    requires forall i :: 0 <= i < |s| ==> '0' <= s[i] <= '9'
  {
    if s == [] then 0 else 10 * DigitsValue(s[..|s| - 1]) + (s[|s| - 1] - '0') as nat
  }

  /** Reading the printed count back gives the count. */
  lemma {:induction false} DecimalRoundTrip(n: nat)
    ensures DigitsValue(Decimal(n)) == n
  {
    var s := Decimal(n);
    if n >= 10 {
      DecimalRoundTrip(n / 10);
      assert s[..|s| - 1] == Decimal(n / 10);
    }
  }

  /** The translated words of the widget that the time label uses. */
  datatype TimeWords = TimeWords(justNow: string, minutesAgo: string, hoursAgo: string, daysAgo: string)

  /** The text of the label: the translated word, after the count and a space when there is one. */
  function TimeAgoText(t: TimeAgo, words: TimeWords): (s: string)
    requires !t.JustNow? ==> (match t case MinutesAgo(n) => n case HoursAgo(n) => n case DaysAgo(n) => n) >= 0
  {
    match t
    case JustNow => words.justNow
    case MinutesAgo(n) => Decimal(n) + " " + words.minutesAgo
    case HoursAgo(n) => Decimal(n) + " " + words.hoursAgo
    case DaysAgo(n) => Decimal(n) + " " + words.daysAgo
  }

  /** The label is the translated "just now", or the count, a space and the translated unit. */
  lemma TimeAgoTextShape(nowMs: int, createdMs: int, words: TimeWords)
    ensures var t := GetTimeAgo(nowMs, createdMs);
      && (t.JustNow? ==> TimeAgoText(t, words) == words.justNow)
      && (t.MinutesAgo? ==> TimeAgoText(t, words) == Decimal(t.minutes) + " " + words.minutesAgo)
      && (t.HoursAgo? ==> TimeAgoText(t, words) == Decimal(t.hours) + " " + words.hoursAgo)
      && (t.DaysAgo? ==> TimeAgoText(t, words) == Decimal(t.days) + " " + words.daysAgo)
  {
  }

  /** `!c.reply_to`: a row is top-level when its reference is `null` or empty. */
  predicate IsTopLevel(c: Comment) {
    !TruthyOpt(c.replyTo)
  }

  predicate IsReply(c: Comment) {
    !IsTopLevel(c)
  }

  /** `Array.prototype.filter`: the rows that satisfy `keep`, in list order. */
  function Filter(cs: seq<Comment>, keep: Comment -> bool): (r: seq<Comment>)
    ensures |r| <= |cs|
    ensures forall c :: c in r <==> c in cs && keep(c)
  {
    if cs == [] then []
    else (if keep(cs[0]) then [cs[0]] else []) + Filter(cs[1..], keep)
  }

  /** Filtering keeps the list order: it distributes over concatenation. */
  lemma {:induction false} FilterAppend(a: seq<Comment>, b: seq<Comment>, keep: Comment -> bool)
    ensures Filter(a + b, keep) == Filter(a, keep) + Filter(b, keep)
  {
    if a != [] {
      assert (a + b)[1..] == a[1..] + b;
      FilterAppend(a[1..], b, keep);
    } else {
      assert a + b == b;
    }
  }

  /** Every row passes exactly one of a filter and its negation. */
  lemma {:induction false} FilterPartition(cs: seq<Comment>, keep: Comment -> bool, drop: Comment -> bool)
    requires forall c :: drop(c) == !keep(c)
    ensures |Filter(cs, keep)| + |Filter(cs, drop)| == |cs|
  {
    if cs != [] {
      FilterPartition(cs[1..], keep, drop);
    }
  }

  /** `parentComments`. */
  function ParentComments(cs: seq<Comment>): (r: seq<Comment>)
    ensures forall c :: c in r <==> c in cs && IsTopLevel(c)
  {
    Filter(cs, IsTopLevel)
  }

  /** `getReplies(commentId)`: the rows whose `reply_to` is exactly `commentId`. */
  function Replies(cs: seq<Comment>, commentId: string): (r: seq<Comment>)
    ensures forall c :: c in r <==> c in cs && c.replyTo == Some(commentId)
  {
    Filter(cs, (c: Comment) => c.replyTo == Some(commentId))
  }

  /** A top-level item as rendered: the comment and the replies under it (which get no replies of their own). */
  datatype ThreadItem = ThreadItem(comment: Comment, replies: seq<Comment>)

  /** The rendered list: one item per top-level comment, in fetched order. */
  function Thread(cs: seq<Comment>): (items: seq<ThreadItem>)
    ensures |items| == |ParentComments(cs)|
    ensures forall i :: 0 <= i < |items| ==>
      items[i].comment == ParentComments(cs)[i] && items[i].replies == Replies(cs, items[i].comment.id)
  {
    var parents := ParentComments(cs);
    seq(|parents|, i requires 0 <= i < |parents| => ThreadItem(parents[i], Replies(cs, parents[i].id)))
  }

  /** A row is on screen when it is a top-level item or one of the replies under one. */
  predicate Displayed(cs: seq<Comment>, c: Comment) {
    exists item :: item in Thread(cs) && (item.comment == c || c in item.replies)
  }

  /**
   * The rows on screen are exactly the top-level rows and the rows that reply
   * directly to a top-level row; a reply to a reply is shown only if some
   * top-level row carries the id it refers to.
   */
  lemma DisplayedIff(cs: seq<Comment>, c: Comment)
    ensures Displayed(cs, c) <==>
      c in cs && (IsTopLevel(c) || exists p :: p in cs && IsTopLevel(p) && c.replyTo == Some(p.id))
  {
    if Displayed(cs, c) {
      DisplayedOnlyIf(cs, c);
    }
    if c in cs && IsTopLevel(c) {
      ShownAsItem(cs, c, c);
    }
    if c in cs && exists p :: p in cs && IsTopLevel(p) && c.replyTo == Some(p.id) {
      var p :| p in cs && IsTopLevel(p) && c.replyTo == Some(p.id);
      ShownAsItem(cs, p, c);
    }
  }

  lemma DisplayedOnlyIf(cs: seq<Comment>, c: Comment)
    requires Displayed(cs, c)
    ensures c in cs
    ensures IsTopLevel(c) || exists p :: p in cs && IsTopLevel(p) && c.replyTo == Some(p.id)
  {
    var items := Thread(cs);
    var item :| item in items && (item.comment == c || c in item.replies);
    var i :| 0 <= i < |items| && items[i] == item;
    var p := ParentComments(cs)[i];
    assert p in ParentComments(cs);
    assert item.comment == p && item.replies == Replies(cs, p.id);
  }

  /** A top-level row `p` is shown as an item, and `c` with it when `c` is `p` or replies to it. */
  lemma ShownAsItem(cs: seq<Comment>, p: Comment, c: Comment)
    requires p in cs && IsTopLevel(p) && c in cs
    requires c == p || c.replyTo == Some(p.id)
    ensures Displayed(cs, c)
  {
    var parents := ParentComments(cs);
    assert p in parents;
    var i :| 0 <= i < |parents| && parents[i] == p;
    var item := Thread(cs)[i];
    assert item in Thread(cs);
    assert item.comment == p && item.replies == Replies(cs, p.id);
  }

  /**
   * With ids unique, as every listing is, and the parent's id non-empty, a
   * reply to a reply is never on screen: its parent's id belongs to no
   * top-level row.
   */
  lemma ReplyToReplyHidden(cs: seq<Comment>, r: Comment, c: Comment)
    requires UniqueIds(cs)
    requires r in cs && IsReply(r) && r.id != ""
    requires c.replyTo == Some(r.id)
    ensures !Displayed(cs, c)
  {
    if Displayed(cs, c) {
      DisplayedOnlyIf(cs, c);
    }
  }

  /** "No comments" is shown exactly when no fetched row is top-level. */
  lemma NoCommentsIff(cs: seq<Comment>)
    ensures |ParentComments(cs)| == 0 <==> forall c :: c in cs ==> !IsTopLevel(c)
  {
    if |ParentComments(cs)| != 0 {
      assert ParentComments(cs)[0] in ParentComments(cs);
    }
  }

  /** The total shown, `comments.length`, counts the top-level rows and every reply, shown or not. */
  lemma TotalCountsReplies(cs: seq<Comment>)
    ensures |cs| == |ParentComments(cs)| + |Filter(cs, IsReply)|
  {
    FilterPartition(cs, IsTopLevel, IsReply);
  }
}
