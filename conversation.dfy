/** The conversation: its states (bot.py:26), the dispatch table that decides
    which handler a message reaches (bot.py:156-163), and the handlers
    `start`, `recibir_foto`, `publicar` and `cancel` (bot.py:28-151) as methods
    of a bot object that holds each user's state, the photo bucket, the
    `publicaciones` table, the replies sent and the requests sent to the
    Graph API. The network
    calls are replaced by their results, passed in as arguments. */
module Conversation {
  import opened Wrappers
  import opened Captions
  import opened Naming
  import opened Choices
  import opened Records
  import opened Graph

  /** ESPERANDO_FOTO and ESPERANDO_ELECCION (`range(2)`, so 0 and 1) and
      ConversationHandler.END (-1); a user with no conversation is at End. */
  datatype State = AwaitingPhoto | AwaitingChoice | End

  /** What a user can send: the two commands, a photo, or any other text. */
  datatype Event = StartCommand | CancelCommand | PhotoMessage | TextMessage(text: string)

  datatype Handler = StartHandler | PhotoHandler | ChoiceHandler | CancelHandler

  /** `filters.Regex("^(1|2|3)$")`, which Python's `re.search` applies: a
      single 1, 2 or 3, where `$` also matches before a final newline. */
  predicate MatchesChoicePattern(text: string): (b: bool)
    ensures b <==> text in ["1", "2", "3", "1\n", "2\n", "3\n"]
  {
    assert |text| == 1 ==> text == [text[0]];
    assert |text| == 2 ==> text == [text[0], text[1]];
    && 1 <= |text| <= 2
    && (text[0] == '1' || text[0] == '2' || text[0] == '3')
    && (|text| == 2 ==> text[1] == '\n')
  }

  /** The handler a message reaches: the entry points when no conversation is
      under way, the state's own handler, then the `/cancel` fallback while a
      conversation is under way; `None` for a message nothing handles. */
  function Route(s: State, e: Event): (h: Option<Handler>)
    ensures h == Some(StartHandler) <==> s == End && e == StartCommand
    ensures h == Some(PhotoHandler) <==> s != AwaitingChoice && e == PhotoMessage
    ensures h == Some(ChoiceHandler) <==> s == AwaitingChoice && e.TextMessage? && MatchesChoicePattern(e.text)
    ensures h == Some(CancelHandler) <==> s != End && e == CancelCommand
  {
    match s
    case End =>
      if e == StartCommand then Some(StartHandler)
      else if e == PhotoMessage then Some(PhotoHandler)
      else None
    case AwaitingPhoto =>
      if e == PhotoMessage then Some(PhotoHandler)
      else if e == CancelCommand then Some(CancelHandler)
      else None
    case AwaitingChoice =>
      if e.TextMessage? && MatchesChoicePattern(e.text) then Some(ChoiceHandler)
      else if e == CancelCommand then Some(CancelHandler)
      else None
  }

  /** The "Cancelar" key of the choice keyboard sends plain text, which is
      neither `/cancel` nor a choice, so no handler receives it. */
  lemma CancelKeyUnhandled()
    ensures Route(AwaitingChoice, TextMessage("Cancelar")) == None
  {
  }

  /** Only texts the pattern lets through reach `publicar`; of those, the ones
      with a final newline fail its guard and get the reminder. */
  lemma GuardRejectsRoutedText()
    ensures Route(AwaitingChoice, TextMessage("2\n")) == Some(ChoiceHandler)
    ensures Choices.Parse("2\n") == None
  {
  }

  /** Every stored id is below `nextId`, and ids grow along the table. */
  ghost predicate Numbered(rows: seq<Row>, nextId: int) {
    && (forall k :: 0 <= k < |rows| ==> rows[k].id < nextId)
    && IdsIncreasing(rows)
  }

  /** Every user in the choosing state has a row in the table. */
  ghost predicate Backed(states: map<int, State>, rows: seq<Row>) {
    forall user :: user in states && states[user] == AwaitingChoice ==> HasRow(rows, user)
  }

  /** Moving a user to any state but choosing keeps every chooser backed. */
  lemma BackedLeaving(states: map<int, State>, rows: seq<Row>, user: int, s: State)
    requires s != AwaitingChoice
    ensures Backed(states, rows) ==> Backed(states[user := s], rows)
  {
  }

  /** Moving a user with a row to the choosing state, in a table that kept
      every user's rows, keeps every chooser backed. */
  lemma BackedChoosing(states: map<int, State>, rows: seq<Row>, rows': seq<Row>, user: int)
    requires HasRow(rows', user)
    requires forall u :: HasRow(rows, u) ==> HasRow(rows', u)
    ensures Backed(states, rows) ==> Backed(states[user := AwaitingChoice], rows')
  {
  }

  /** A user in the choosing state always has a latest row. */
  lemma ChooserHasPhoto(states: map<int, State>, rows: seq<Row>, user: int)
    requires Backed(states, rows)
    requires user in states && states[user] == AwaitingChoice
    ensures Latest(rows, user).Some?
  {
  }

  /** The result of uploading the photo: its public URL, or an exception. */
  datatype Upload = Uploaded(publicUrl: string) | UploadFailed

  /** The replies the bot sends, without their wording. */
  datatype Reply =
    | Greeting
    | Received
    | UploadError
    | Menu(previews: seq<string>)
    | Reminder
    | Publishing(choice: Choice)
    | PhotoNotFound
    | PostReport(outcome: Outcome)
    | Done
    | Cancelled

  class Bot {
    /** META_ACCESS_TOKEN and ID_PAGINA_FACEBOOK. */
    const accessToken: Option<string>
    const pageId: Option<string>

    /** Each user's conversation state. */
    var states: map<int, State>
    /** The "fotos-pizza" bucket: object name to photo bytes. */
    var bucket: map<string, seq<bv8>>
    /** The `publicaciones` table, in insertion order. */
    var rows: seq<Row>
    /** The id the table gives the next row. */
    var nextId: int
    var replies: seq<Reply>
    /** The requests sent to the Graph API. */
    var requests: seq<Request>

    /** The table's ids are assigned in increasing order. */
    ghost predicate Valid()
      reads this
    {
      Numbered(rows, nextId)
    }

    /** Whoever is asked to choose has a row to choose from. */
    ghost predicate ChoiceBacked()
      reads this
    {
      Backed(states, rows)
    }

    function StateOf(user: int): State
      reads this
    {
      if user in states then states[user] else End
    }

    constructor (accessToken: Option<string>, pageId: Option<string>)
      ensures Valid() && ChoiceBacked()
      ensures this.accessToken == accessToken && this.pageId == pageId
      ensures states == map[] && bucket == map[] && rows == [] && replies == [] && requests == []
    {
      this.accessToken := accessToken;
      this.pageId := pageId;
      states := map[];
      bucket := map[];
      rows := [];
      nextId := 1;
      replies := [];
      requests := [];
    }

    /** `start`: greet and wait for a photo. */
    method Start(user: int)
      requires Valid()
      modifies this
      ensures Valid()
      ensures old(ChoiceBacked()) ==> ChoiceBacked()
      ensures states == old(states)[user := AwaitingPhoto]
      ensures replies == old(replies) + [Greeting]
      ensures bucket == old(bucket) && rows == old(rows) && nextId == old(nextId) && requests == old(requests)
    {
      BackedLeaving(states, rows, user, AwaitingPhoto);
      replies := replies + [Greeting];
      states := states[user := AwaitingPhoto];
    }

    /** `recibir_foto`: store the photo under its name, parse the captioning
        model's answer `generated`, insert the row and show the menu. A failed
        upload ends the conversation and does nothing else. */
    method ReceivePhoto(user: int, uniqueId: string, photo: seq<bv8>, upload: Upload, generated: string)
      requires Valid()
      modifies this
      ensures Valid()
      ensures old(ChoiceBacked()) ==> ChoiceBacked()
      ensures requests == old(requests)
      ensures upload.UploadFailed? ==>
        && states == old(states)[user := End]
        && replies == old(replies) + [Received, UploadError]
        && bucket == old(bucket) && rows == old(rows) && nextId == old(nextId)
      ensures upload.Uploaded? ==>
        var o := ParseOptions(generated);
        && bucket == old(bucket)[FileName(user, uniqueId) := photo]
        && rows == old(rows) + [Row(old(nextId), user, upload.publicUrl, o.first, o.second, o.third, Waiting)]
        && nextId == old(nextId) + 1
        && states == old(states)[user := AwaitingChoice]
        && replies == old(replies) + [Received, Menu([Preview(o.first), Preview(o.second), Preview(o.third)])]
      ensures upload.Uploaded? ==> Latest(rows, user) == Some(rows[|rows| - 1])
    {
      if upload.UploadFailed? {
        BackedLeaving(states, rows, user, End);
        replies := replies + [Received, UploadError];
        states := states[user := End];
        return;
      }
      var name := FileName(user, uniqueId);
      var options := ParseOptions(generated);
      var menu := Menu([Preview(options.first), Preview(options.second), Preview(options.third)]);
      Accept(user, name, photo, upload.publicUrl, options, menu);
    }

    /** The rest of `recibir_foto` once the photo is uploaded: the object is
        stored under `name`, the row is inserted with the table's next id, the
        menu is sent and the user is asked to choose. */
    method Accept(user: int, name: string, photo: seq<bv8>, photoUrl: string, options: Options, menu: Reply)
      requires Valid()
      modifies this
      ensures Valid()
      ensures old(ChoiceBacked()) ==> ChoiceBacked()
      ensures requests == old(requests)
      ensures bucket == old(bucket)[name := photo]
      ensures rows == old(rows) + [Row(old(nextId), user, photoUrl, options.first, options.second, options.third, Waiting)]
      ensures nextId == old(nextId) + 1
      ensures states == old(states)[user := AwaitingChoice]
      ensures replies == old(replies) + [Received, menu]
      ensures Latest(rows, user) == Some(rows[|rows| - 1])
    {
      var row := Row(nextId, user, photoUrl, options.first, options.second, options.third, Waiting);
      LatestAfterInsert(rows, row);
      InsertKeepsOrder(rows, row);
      BackedChoosing(states, rows, rows + [row], user);
      bucket := bucket[name := photo];
      rows := rows + [row];
      nextId := nextId + 1;
      replies := replies + [Received, menu];
      states := states[user := AwaitingChoice];
    }

    /** `publicar`, reached only while the user is choosing. A text other than
        "1", "2" or "3" gets a reminder and changes nothing else. A choice
        reads the user's latest row and, when both credentials are set, sends
        its photo with the chosen option; whatever happens, the user is then
        asked for a new photo. */
    method Publish(user: int, text: string, response: Response)
      requires Valid()
      requires StateOf(user) == AwaitingChoice
      modifies this
      ensures Valid()
      ensures old(ChoiceBacked()) ==> ChoiceBacked()
      ensures bucket == old(bucket) && rows == old(rows) && nextId == old(nextId)
      ensures Choices.Parse(text).None? ==>
        && states == old(states)
        && replies == old(replies) + [Reminder]
        && requests == old(requests)
      ensures Choices.Parse(text).Some? ==> states == old(states)[user := AwaitingPhoto]
      ensures Choices.Parse(text).Some? && Latest(rows, user).None? ==>
        && replies == old(replies) + [Publishing(Choices.Parse(text).value), PhotoNotFound]
        && requests == old(requests)
      ensures Choices.Parse(text).Some? && Latest(rows, user).Some? ==>
        var c := Choices.Parse(text).value;
        var row := Latest(rows, user).value;
        var request := PlanPost(accessToken, pageId, row.photoUrl, Caption(row, c).value);
        && requests == old(requests) + (if request.Some? then [request.value] else [])
        && replies == old(replies) + [Publishing(c), PostReport(Report(request, response)), Done]
    {
      var choice := Choices.Parse(text);
      if choice.None? {
        replies := replies + [Reminder];
        return;
      }
      var c := choice.value;
      BackedLeaving(states, rows, user, AwaitingPhoto);
      replies := replies + [Publishing(c)];
      var latest := Latest(rows, user);
      if latest.None? {
        replies := replies + [PhotoNotFound];
        states := states[user := AwaitingPhoto];
        return;
      }
      var row := latest.value;
      var caption := Caption(row, c).value;
      var request := PlanPost(accessToken, pageId, row.photoUrl, caption);
      if request.Some? {
        requests := requests + [request.value];
      }
      replies := replies + [PostReport(Report(request, response)), Done];
      states := states[user := AwaitingPhoto];
    }

    /** `cancel`: end the conversation from either state. */
    method Cancel(user: int)
      requires Valid()
      modifies this
      ensures Valid()
      ensures old(ChoiceBacked()) ==> ChoiceBacked()
      ensures states == old(states)[user := End]
      ensures replies == old(replies) + [Cancelled]
      ensures bucket == old(bucket) && rows == old(rows) && nextId == old(nextId) && requests == old(requests)
    {
      BackedLeaving(states, rows, user, End);
      replies := replies + [Cancelled];
      states := states[user := End];
    }

    /** One incoming message, dispatched as the conversation handler
        dispatches it: the handler `Route` picks for the user's state runs,
        with that handler's effects, and a message no handler takes changes
        nothing. The photo's details,
        the captioning model's answer and the Graph API's answer are the ones
        this message meets. Only the sender's conversation moves, the table's
        invariants hold after every message, and a choosing user's photo is
        always found. */
    method Handle(user: int, e: Event, uniqueId: string, photo: seq<bv8>, upload: Upload,
                  generated: string, response: Response)
      requires Valid() && ChoiceBacked()
      modifies this
      ensures Valid() && ChoiceBacked()
      ensures old(replies) <= replies && old(requests) <= requests
      ensures Route(old(StateOf(user)), e).None? ==>
        && states == old(states) && replies == old(replies) && requests == old(requests)
        && bucket == old(bucket) && rows == old(rows) && nextId == old(nextId)
      ensures Route(old(StateOf(user)), e).Some? ==> states == old(states)[user := StateOf(user)]
      ensures Route(old(StateOf(user)), e) == Some(StartHandler) ==>
        && StateOf(user) == AwaitingPhoto
        && replies == old(replies) + [Greeting]
        && bucket == old(bucket) && rows == old(rows) && nextId == old(nextId) && requests == old(requests)
      ensures Route(old(StateOf(user)), e) == Some(PhotoHandler) && upload.UploadFailed? ==>
        && StateOf(user) == End
        && replies == old(replies) + [Received, UploadError]
        && bucket == old(bucket) && rows == old(rows) && nextId == old(nextId) && requests == old(requests)
      ensures Route(old(StateOf(user)), e) == Some(PhotoHandler) && upload.Uploaded? ==>
        var o := ParseOptions(generated);
        && StateOf(user) == AwaitingChoice
        && bucket == old(bucket)[FileName(user, uniqueId) := photo]
        && rows == old(rows) + [Row(old(nextId), user, upload.publicUrl, o.first, o.second, o.third, Waiting)]
        && nextId == old(nextId) + 1
        && replies == old(replies) + [Received, Menu([Preview(o.first), Preview(o.second), Preview(o.third)])]
        && requests == old(requests)
        && Latest(rows, user) == Some(rows[|rows| - 1])
      ensures Route(old(StateOf(user)), e) == Some(ChoiceHandler) ==>
        && bucket == old(bucket) && rows == old(rows) && nextId == old(nextId)
      ensures Route(old(StateOf(user)), e) == Some(ChoiceHandler) && Choices.Parse(e.text).None? ==>
        && StateOf(user) == AwaitingChoice
        && replies == old(replies) + [Reminder]
        && requests == old(requests)
      ensures Route(old(StateOf(user)), e) == Some(ChoiceHandler) && Choices.Parse(e.text).Some? ==>
        && StateOf(user) == AwaitingPhoto
        && Latest(rows, user).Some?
        && var c := Choices.Parse(e.text).value;
           var row := Latest(rows, user).value;
           var request := PlanPost(accessToken, pageId, row.photoUrl, Caption(row, c).value);
           && requests == old(requests) + (if request.Some? then [request.value] else [])
           && replies == old(replies) + [Publishing(c), PostReport(Report(request, response)), Done]
      ensures Route(old(StateOf(user)), e) == Some(ChoiceHandler) && Choices.Parse(e.text).Some? ==>
        PhotoNotFound !in replies[|old(replies)|..]
      ensures Route(old(StateOf(user)), e) == Some(CancelHandler) ==>
        && StateOf(user) == End
        && replies == old(replies) + [Cancelled]
        && bucket == old(bucket) && rows == old(rows) && nextId == old(nextId) && requests == old(requests)
    {
      var h := Route(StateOf(user), e);
      if h == Some(StartHandler) {
        Start(user);
      } else if h == Some(PhotoHandler) {
        ReceivePhoto(user, uniqueId, photo, upload, generated);
      } else if h == Some(ChoiceHandler) {
        ChooserHasPhoto(states, rows, user);
        Publish(user, e.text, response);
      } else if h == Some(CancelHandler) {
        Cancel(user);
      }
    }
  }

  /** A photo followed by a choice, each dispatched as a message: with both
      credentials set, the request carries the uploaded photo's URL and the
      chosen one of the options parsed from the captioning model's answer,
      and the user is asked for a new photo. */
  method PhotoThenChoice(bot: Bot, user: int, uniqueId: string, photo: seq<bv8>, url: string,
                         generated: string, c: Choice, response: Response)
    requires bot.Valid() && bot.ChoiceBacked()
    requires bot.StateOf(user) != AwaitingChoice
    requires Truthy(bot.accessToken) && Truthy(bot.pageId)
    modifies bot
    ensures bot.Valid() && bot.ChoiceBacked()
    ensures bot.StateOf(user) == AwaitingPhoto
    ensures var o := ParseOptions(generated);
      var caption := match c case One => o.first case Two => o.second case Three => o.third;
      bot.requests == old(bot.requests) +
        [Request(GraphBase + bot.pageId.value + "/photos", url, caption, bot.accessToken.value)]
  {
    bot.Handle(user, PhotoMessage, uniqueId, photo, Uploaded(url), generated, response);
    ParseText(c);
    bot.Handle(user, TextMessage(Text(c)), uniqueId, photo, Uploaded(url), generated, response);
  }
}
