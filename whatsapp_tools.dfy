/** `WhatsAppTools` of app/tools/whatsapp_tools.py: the Graph API client setup. Its constructor
    checks the access token, the phone number id and the API version, then derives the request
    headers and URLs; `is_image_already_processed` looks an image up in the media directory. */
module WhatsAppTools {
  import opened Wrappers
  import opened PyStr

  const TokenMissing := "Token not provided but required."
  const PhoneNumberIdMissing := "Phone Number ID but required."
  const VersionMissing := "Version not provided but required."

  const GraphRoot := "https://graph.facebook.com/"

  /** The `ValueError` the constructor raises, if any: the arguments are checked in the order
      token, phone number id, version. */
  function CheckArgs(token: Option<string>, version: Option<string>, phoneNumberId: Option<string>): (r: Option<string>)
    ensures r.None? <==> !Falsy(token) && !Falsy(phoneNumberId) && !Falsy(version)
    ensures r.Some? ==> r.value in {TokenMissing, PhoneNumberIdMissing, VersionMissing}
  {
    if Falsy(token) then Some(TokenMissing)
    else if Falsy(phoneNumberId) then Some(PhoneNumberIdMissing)
    else if Falsy(version) then Some(VersionMissing)
    else None
  }

  /** The complaints about every missing argument, in the order the constructor checks them. */
  function Complaints(token: Option<string>, version: Option<string>, phoneNumberId: Option<string>): seq<string> {
    (if Falsy(token) then [TokenMissing] else [])
    + (if Falsy(phoneNumberId) then [PhoneNumberIdMissing] else [])
    + (if Falsy(version) then [VersionMissing] else [])
  }

  /** The constructor fails exactly when some argument is missing or empty, and then reports the
      first of them in the order token, phone number id, version. */
  lemma CheckArgsFirstComplaint(token: Option<string>, version: Option<string>, phoneNumberId: Option<string>)
    ensures CheckArgs(token, version, phoneNumberId).None? <==> Complaints(token, version, phoneNumberId) == []
    ensures CheckArgs(token, version, phoneNumberId).Some? ==>
      CheckArgs(token, version, phoneNumberId).value == Complaints(token, version, phoneNumberId)[0]
  {
  }

  /** Both header maps: JSON content and the bearer token. */
  function Headers(token: string): map<string, string> {
    map["Content-type" := "application/json", "Authorization" := "Bearer " + token]
  }

  /** The header map has exactly the two entries, the second carrying the token. */
  lemma HeadersContent(token: string)
    ensures Headers(token).Keys == {"Content-type", "Authorization"}
    ensures Headers(token)["Content-type"] == "application/json"
    ensures Headers(token)["Authorization"] == "Bearer " + token
  {
  }

  function BaseUrl(version: string): string {
    GraphRoot + version
  }

  function MessagesUrl(version: string, phoneNumberId: string): string {
    BaseUrl(version) + "/" + phoneNumberId + "/messages"
  }

  lemma PrefixCancel(a: string, x: string, y: string)
    requires a + x == a + y
    ensures x == y
  {
    assert x == (a + x)[|a|..];
  }

  lemma SuffixCancel(x: string, y: string, b: string)
    requires x + b == y + b
    ensures x == y
  {
    assert x == (x + b)[..|x|];
  }

  lemma FirstSlash(v: string, rest: string)
    requires '/' !in v
    ensures '/' in v + "/" + rest && IndexOf(v + "/" + rest, '/') == |v|
  {
    var t := v + "/" + rest;
    assert t[|v|] == '/';
    assert t[..|v|] == v;
  }

  /** Text up to the first `/` and text after it are determined by the whole. */
  lemma SlashSplit(v1: string, r1: string, v2: string, r2: string)
    requires '/' !in v1 && '/' !in v2
    requires v1 + "/" + r1 == v2 + "/" + r2
    ensures v1 == v2 && r1 == r2
  {
    var t := v1 + "/" + r1;
    FirstSlash(v1, r1);
    FirstSlash(v2, r2);
    assert v1 == t[..|v1|] && v2 == (v2 + "/" + r2)[..|v2|];
    assert r1 == t[|v1| + 1..] && r2 == (v2 + "/" + r2)[|v2| + 1..];
  }

  /** For versions without `/`, the messages URL determines both the version and the phone
      number id. */
  lemma MessagesUrlInjective(v1: string, p1: string, v2: string, p2: string)
    requires '/' !in v1 && '/' !in v2
    requires MessagesUrl(v1, p1) == MessagesUrl(v2, p2)
    ensures v1 == v2 && p1 == p2
  {
    assert MessagesUrl(v1, p1) == GraphRoot + (v1 + "/" + (p1 + "/messages"));
    assert MessagesUrl(v2, p2) == GraphRoot + (v2 + "/" + (p2 + "/messages"));
    PrefixCancel(GraphRoot, v1 + "/" + (p1 + "/messages"), v2 + "/" + (p2 + "/messages"));
    SlashSplit(v1, p1 + "/messages", v2, p2 + "/messages");
    SuffixCancel(p1, p2, "/messages");
  }

  /** Where the media download stores an image: `../data/<id>.jpeg`. */
  function ImagePath(imageId: string): string {
    "../data/" + imageId + ".jpeg"
  }

  /** `is_image_already_processed`, against the listing of the `../data` directory. */
  predicate IsImageAlreadyProcessed(imageId: string, listing: set<string>) {
    ImagePath(imageId) in listing
  }

  /** Distinct ids have distinct image paths, so one listed image never answers for another id;
      the path's file name is `<id>.jpeg` for an id without `/`. */
  lemma ImagePathInjective(a: string, b: string)
    ensures ImagePath(a) == ImagePath(b) ==> a == b
    ensures '/' !in a ==> Basename(ImagePath(a)) == a + ".jpeg"
  {
    if ImagePath(a) == ImagePath(b) {
      assert a == ImagePath(a)[8..|ImagePath(a)| - 5];
      assert b == ImagePath(b)[8..|ImagePath(b)| - 5];
    }
    if '/' !in a {
      assert ImagePath(a) == "../data" + "/" + (a + ".jpeg");
      assert '/' !in a + ".jpeg";
      BasenameAfterSlash("../data", a + ".jpeg");
    }
  }

  /** Saving the image of `b` into the data directory makes exactly `b` count as processed
      besides what already did; removing it makes exactly `b` stop counting. */
  lemma ImageProcessedAfterSave(a: string, b: string, listing: set<string>)
    ensures IsImageAlreadyProcessed(a, listing + {ImagePath(b)}) <==> a == b || IsImageAlreadyProcessed(a, listing)
    ensures IsImageAlreadyProcessed(a, listing - {ImagePath(b)}) <==> a != b && IsImageAlreadyProcessed(a, listing)
  {
    ImagePathInjective(a, b);
  }

  class WhatsAppTools {
    var sendMessageHeaders: map<string, string>
    var getMediaInfoHeaders: map<string, string>
    var version: string
    var phoneNumberId: string
    var baseUrl: string
    var url: string

    /** The assignments `__init__` makes once its checks pass. */
    constructor(token: string, version: string, phoneNumberId: string)
      requires CheckArgs(Some(token), Some(version), Some(phoneNumberId)).None?
      ensures sendMessageHeaders == Headers(token) && getMediaInfoHeaders == Headers(token)
      ensures this.version == version && this.phoneNumberId == phoneNumberId
      ensures baseUrl == BaseUrl(version) && url == MessagesUrl(version, phoneNumberId)
    {
      sendMessageHeaders := map["Content-type" := "application/json", "Authorization" := "Bearer " + token];
      getMediaInfoHeaders := map["Content-type" := "application/json", "Authorization" := "Bearer " + token];
      this.version := version;
      this.phoneNumberId := phoneNumberId;
      baseUrl := GraphRoot + version;
      url := GraphRoot + version + "/" + phoneNumberId + "/messages";
    }

    /** `WhatsAppTools(token, version, phone_number_id)`: the `ValueError` of the first missing
        argument, or a new client whose two header maps are identical and carry
        `Bearer <token>`, and whose URLs are built from the version and the phone number id. */
    static method Create(token: Option<string>, version: Option<string>, phoneNumberId: Option<string>)
      returns (r: Result<WhatsAppTools>)
      ensures CheckArgs(token, version, phoneNumberId).Some? ==> r == Err(CheckArgs(token, version, phoneNumberId).value)
      ensures CheckArgs(token, version, phoneNumberId).None? ==>
        r.Ok? && fresh(r.value)
        && r.value.sendMessageHeaders == r.value.getMediaInfoHeaders == Headers(token.value)
        && r.value.version == version.value && r.value.phoneNumberId == phoneNumberId.value
        && r.value.baseUrl == GraphRoot + version.value
        && r.value.url == r.value.baseUrl + "/" + phoneNumberId.value + "/messages"
    {
      if token.None? || token.value == "" {
        return Err(TokenMissing);
      }
      if phoneNumberId.None? || phoneNumberId.value == "" {
        return Err(PhoneNumberIdMissing);
      }
      if version.None? || version.value == "" {
        return Err(VersionMissing);
      }
      var tools := new WhatsAppTools(token.value, version.value, phoneNumberId.value);
      return Ok(tools);
    }
  }
}
