/**
 * The Tinybeans domain model: users, relationships, children and their
 * journals, media blobs and journal entries, with the properties derived
 * from them (parent relationship, best blob, entry kind and media url).
 */
module Domain {
  import opened Wrappers

  /** The client identity sent with every authenticated-flow request. */
  const IosClientId: string := "13bcd503-2137-9085-a437-d9f2ac9281a1"

  /** The exceptions the library raises, one constructor per raising site. */
  datatype Error =
    | JournalNotSet              // `assert self._journal is not None`
    | NoBestBlob                 // `best` found no usable variant
    | NoUrl(kind: string)        // `url` on an entry that is neither video nor photo
    | NoPhotoUrl(kind: string)   // `photo_url` on a non-photo entry
    | NoVideoUrl(kind: string)   // `video_url` without a video or without an mp4 url
    | HttpError(status: int)     // `raise_for_status`
    | MissingKey(key: string)    // a required key absent from a response body
    | EntryUnbound               // the cursor read `entry` before any entry was seen

  datatype User = User(id: int, firstName: string, lastName: string, emailAddress: string, username: string)

  datatype Comment = Comment(id: int, details: string, user: User)

  /** A reaction; its free-form `type` mapping is kept as strings. */
  datatype Emotion = Emotion(id: int, entryId: int, userId: int, reaction: map<string, string>)

  datatype Date = Date(year: int, month: int, day: int)

  // ---------------------------------------------------------------------------
  // Relationship

  /** `role` is the wire field `label` (a reserved word here): "father", "friend", ... */
  datatype Relationship = Relationship(role: string, name: string)

  function LowerChar(c: char): char
  {
    if 'A' <= c <= 'Z' then (c as int + 32) as char else c
  }

  function UpperChar(c: char): char
  {
    if 'a' <= c <= 'z' then (c as int - 32) as char else c
  }

  /** `str.lower`, restricted to the ASCII letters. */
  function Lower(s: string): (r: string)
    ensures |r| == |s|
    ensures forall i :: 0 <= i < |s| ==> r[i] == LowerChar(s[i])
  {
    if s == [] then [] else [LowerChar(s[0])] + Lower(s[1..])
  }

  /** `s` spells the lower-case word `word`, each letter in either case. */
  predicate MatchesIgnoringCase(s: string, word: string)
  {
    |s| == |word| && forall i :: 0 <= i < |s| ==> s[i] == word[i] || s[i] == UpperChar(word[i])
  }

  predicate IsLowerWord(word: string)
  {
    forall i :: 0 <= i < |word| ==> 'a' <= word[i] <= 'z'
  }

  lemma LowerIsWord(s: string, word: string)
    requires IsLowerWord(word)
    ensures Lower(s) == word <==> MatchesIgnoringCase(s, word)
  {
    if MatchesIgnoringCase(s, word) {
      assert forall i :: 0 <= i < |s| ==> Lower(s)[i] == word[i];
    }
  }

  /** A relationship is a parent one when its label is "father" or "mother", in any case. */
  function IsParent(r: Relationship): (b: bool)
    ensures b <==> MatchesIgnoringCase(r.role, "father") || MatchesIgnoringCase(r.role, "mother")
  {
    LowerIsWord(r.role, "father");
    LowerIsWord(r.role, "mother");
    Lower(r.role) in {"father", "mother"}
  }

  // ---------------------------------------------------------------------------
  // Child and Journal: a journal owns its children, each child points back

  class Child {
    const id: int
    const firstName: string
    const lastName: string
    const gender: string
    const dob: Date
    var journal: Journal?

    constructor (id: int, firstName: string, lastName: string, gender: string, dob: Date)
      ensures this.id == id && this.firstName == firstName && this.lastName == lastName
      ensures this.gender == gender && this.dob == dob
      ensures journal == null
    {
      this.id := id;
      this.firstName := firstName;
      this.lastName := lastName;
      this.gender := gender;
      this.dob := dob;
      journal := null;
    }

    /** The first name and the last name joined by one space. */
    function Name(): (r: string)
      ensures |r| == |firstName| + 1 + |lastName|
      ensures r[..|firstName|] == firstName && r[|firstName|] == ' ' && r[|firstName| + 1..] == lastName
    {
      firstName + " " + lastName
    }

    /** The owning journal; reading it before a journal has claimed the child fails. */
    function GetJournal(): (r: Result<Journal, Error>)
      reads this
      ensures r.Ok? <==> journal != null
      ensures r.Ok? ==> r.value == journal
      ensures r.Err? ==> r.error == JournalNotSet
    {
      if journal == null then Err(JournalNotSet) else Ok(journal)
    }
  }

  class Journal {
    const id: int
    const title: string
    const children: seq<Child>

    /** Every child of this journal points back to it. */
    predicate Linked()
      reads children
    {
      forall c :: c in children ==> c.journal == this
    }

    /** Building a journal sets the back-reference of each of its children to the new journal. */
    constructor (id: int, title: string, children: seq<Child>)
      modifies set c | c in children
      ensures this.id == id && this.title == title && this.children == children
      ensures Linked()
    {
      this.id := id;
      this.title := title;
      this.children := children;
      new;
      var i := 0;
      while i < |children|
        invariant 0 <= i <= |children|
        invariant forall j :: 0 <= j < i ==> children[j].journal == this
      {
        children[i].journal := this;
        i := i + 1;
      }
    }
  }

  datatype Following = Following(id: int, url: string, relationship: Relationship, journal: Journal)

  // ---------------------------------------------------------------------------
  // Blobs

  /** The media variants of an entry: `o` is always present, the others arrive as extra keys. */
  datatype Blobs = Blobs(o: string, extra: map<string, string>)

  /** The variant names, best first. */
  const Priority: seq<string> := ["o", "o2", "t", "s", "s2", "m", "l", "p"]

  /** `getattr(blobs, key, None)`. */
  function Variant(b: Blobs, key: string): (r: Option<string>)
    ensures r.Some? <==> key == "o" || key in b.extra
    ensures key == "o" ==> r == Some(b.o)
  {
    if key == "o" then Some(b.o) else if key in b.extra then Some(b.extra[key]) else None
  }

  /** Index of the first key whose variant is present and not empty. */
  function FirstUsable(b: Blobs, keys: seq<string>): (r: Option<nat>)
    ensures r.Some? ==> r.value < |keys| && Truthy(Variant(b, keys[r.value]))
    ensures r.Some? ==> forall j :: 0 <= j < r.value ==> !Truthy(Variant(b, keys[j]))
    ensures r.None? ==> forall j :: 0 <= j < |keys| ==> !Truthy(Variant(b, keys[j]))
  {
    if keys == [] then None
    else if Truthy(Variant(b, keys[0])) then Some(0)
    else match FirstUsable(b, keys[1..])
      case None => None
      case Some(i) => Some(i + 1)
  }

  /** The best media url: the first variant in priority order that is present and not empty. */
  function Best(b: Blobs): (r: Result<string, Error>)
    ensures r.Ok? ==> r.value != ""
    ensures r.Ok? ==> exists i :: 0 <= i < |Priority| && Variant(b, Priority[i]) == Some(r.value) &&
                                  forall j :: 0 <= j < i ==> !Truthy(Variant(b, Priority[j]))
    ensures r.Err? <==> forall i :: 0 <= i < |Priority| ==> !Truthy(Variant(b, Priority[i]))
    ensures r.Err? ==> r.error == NoBestBlob
  {
    match FirstUsable(b, Priority)
    case Some(i) => Ok(Variant(b, Priority[i]).value)
    case None => Err(NoBestBlob)
  }

  /** `o` is tried first, so a non-empty `o` is always the best blob. */
  lemma BestPrefersO(b: Blobs)
    requires b.o != ""
    ensures Best(b) == Ok(b.o)
  {
  }

  /** Without a usable `o`, the best blob is the first usable extra variant. */
  lemma BestFallsBack(b: Blobs, i: nat)
    requires 0 < i < |Priority|
    requires Truthy(Variant(b, Priority[i]))
    requires forall j :: 0 <= j < i ==> !Truthy(Variant(b, Priority[j]))
    ensures Best(b) == Ok(b.extra[Priority[i]])
  {
    assert Priority[i] != "o";
  }

  // ---------------------------------------------------------------------------
  // Entry

  /** A journal entry; `kind` is the wire field `type`, `timestamp` is in epoch milliseconds. */
  datatype Entry = Entry(
    id: int,
    uuid: string,
    timestamp: int,
    kind: string,
    caption: string,
    blobs: Blobs,
    attachmentType: Option<string>,
    latitude: Option<string>,
    longitude: Option<string>,
    attachmentUrlMp4: Option<string>,
    emotions: seq<Emotion>,
    comments: seq<Comment>)

  /**
   * The `attachment_type` validator: "VIDEO" is kept, anything else becomes
   * the keyword argument `type`, which the validator is never given.
   */
  function NormalizeAttachmentType(v: Option<string>): (r: Option<string>)
    ensures r == Some("VIDEO") <==> v == Some("VIDEO")
    ensures r != Some("VIDEO") ==> r == None
  {
    if v == Some("VIDEO") then v else None
  }

  /** An entry as validation builds it from the record `raw` received. */
  function Construct(raw: Entry): (e: Entry)
    ensures e == raw.(attachmentType := e.attachmentType)
    ensures e.attachmentType == None || e.attachmentType == Some("VIDEO")
    ensures IsVideo(e) <==> raw.attachmentType == Some("VIDEO")
    ensures IsPhoto(e) <==> raw.kind == "PHOTO" && raw.attachmentType != Some("VIDEO")
  {
    raw.(attachmentType := NormalizeAttachmentType(raw.attachmentType))
  }

  predicate IsVideo(e: Entry)
  {
    e.attachmentType == Some("VIDEO")
  }

  /** A photo is an entry of type PHOTO that is not a video; so no entry is both. */
  function IsPhoto(e: Entry): (b: bool)
    ensures b ==> !IsVideo(e)
    ensures b <==> e.kind == "PHOTO" && e.attachmentType != Some("VIDEO")
  {
    e.kind == "PHOTO" && !IsVideo(e)
  }

  predicate IsText(e: Entry)
  {
    e.kind == "TEXT"
  }

  function VideoUrl(e: Entry): (r: Result<string, Error>)
    ensures r.Ok? <==> IsVideo(e) && Truthy(e.attachmentUrlMp4)
    ensures r.Ok? ==> Some(r.value) == e.attachmentUrlMp4 && r.value != ""
    ensures r.Err? ==> r.error == NoVideoUrl(e.kind)
  {
    if IsVideo(e) && Truthy(e.attachmentUrlMp4) then Ok(e.attachmentUrlMp4.value) else Err(NoVideoUrl(e.kind))
  }

  function PhotoUrl(e: Entry): (r: Result<string, Error>)
    ensures IsPhoto(e) ==> r == Best(e.blobs)
    ensures !IsPhoto(e) ==> r == Err(NoPhotoUrl(e.kind))
    ensures r.Ok? ==> r.value != ""
  {
    if IsPhoto(e) then Best(e.blobs) else Err(NoPhotoUrl(e.kind))
  }

  /** The media url of an entry: a video's mp4 url, a photo's best blob, an error for any other kind. */
  function Url(e: Entry): (r: Result<string, Error>)
    ensures IsVideo(e) ==> (r.Ok? <==> Truthy(e.attachmentUrlMp4)) && (r.Ok? ==> Some(r.value) == e.attachmentUrlMp4)
    ensures IsVideo(e) && r.Err? ==> r.error == NoVideoUrl(e.kind)
    ensures IsPhoto(e) ==> r == Best(e.blobs)
    ensures !IsVideo(e) && !IsPhoto(e) ==> r == Err(NoUrl(e.kind))
    ensures r.Ok? ==> r.value != ""
  {
    if IsVideo(e) then VideoUrl(e)
    else if IsPhoto(e) then PhotoUrl(e)
    else Err(NoUrl(e.kind))
  }

  /** A text entry has no url, whatever its attachment fields say. */
  lemma TextHasNoUrl(raw: Entry)
    requires IsText(Construct(raw)) && raw.attachmentType != Some("VIDEO")
    ensures Url(Construct(raw)) == Err(NoUrl("TEXT"))
  {
  }
}
