/**
 * The team profile popup: the team's picture or coloured initial, and for
 * the team's manager the image upload and delete, the name and description
 * edit and the update request.
 */
module TeamProfilePopup {
  import opened JsCore
  import ColorUtils

  /** What the popup is opened with. `teamProfileImg` is `None` for `null`
      or `undefined`. */
  datatype TeamInfo = TeamInfo(teamId: Scalar, userId: Scalar, teamName: string, teamDesc: string,
                               teamProfileImg: Option<string>)

  /** `currentUserId === teamInfo.userId` */
  predicate IsManager(currentUserId: Scalar, info: TeamInfo) {
    StrictEq(currentUserId, info.userId)
  }

  /** Strict equality: the same id text held once as a number and once as
      a string does not make the user the manager. */
  lemma ManagerNeedsSameType(n: int, info: TeamInfo)
    requires info.userId == Num(n)
    ensures IsManager(Num(n), info)
    ensures !IsManager(Str(IntToString(n)), info)
  {
  }

  /** Being the manager needs the same id text at least. */
  lemma ManagerHasSameText(currentUserId: Scalar, info: TeamInfo)
    requires IsManager(currentUserId, info)
    ensures StrEq(currentUserId, info.userId)
  {
  }

  // ---------------------------------------------------------------------
  // The image checks

  /** The chosen file: its size in bytes and its MIME type. */
  datatype ImageFile = ImageFile(size: int, mime: string)

  const MaxImageBytes: int := 5 * 1024 * 1024

  datatype ImageCheck = NoFile | TooLarge | NotImage | Accepted

  /** `handleImageChange`'s checks, in their order: no file, then the size,
      then the type. */
  function CheckImage(file: Option<ImageFile>): (r: ImageCheck)
    ensures r == NoFile <==> file.None?
    ensures r == TooLarge <==> file.Some? && file.value.size > 5242880
    ensures r == NotImage <==> file.Some? && file.value.size <= 5242880 && !StartsWith(file.value.mime, "image/")
    ensures r == Accepted <==> file.Some? && file.value.size <= 5242880 && StartsWith(file.value.mime, "image/")
  {
    if file.None? then NoFile
    else if file.value.size > MaxImageBytes then TooLarge
    else if !StartsWith(file.value.mime, "image/") then NotImage
    else Accepted
  }

  /** A file both too large and not an image is reported as too large: the
      size is checked first. */
  lemma SizeCheckedFirst(size: int, mime: string)
    requires size > MaxImageBytes
    ensures CheckImage(Some(ImageFile(size, mime))) == TooLarge
  {
  }

  /** Exactly 5 MiB is still accepted. */
  lemma FiveMebibytesAccepted()
    ensures CheckImage(Some(ImageFile(5242880, "image/png"))) == Accepted
  {
    assert "image/png"[..6] == "image/";
  }

  // ---------------------------------------------------------------------
  // The picture or the initial

  /** `name.charAt(0).toUpperCase()` */
  function Initial(name: string): (r: string)
    ensures name == [] ==> r == []
    ensures name != [] ==> |r| == 1 && r[0] == UpperChar(name[0])
  {
    if name == [] then [] else ToUpper(name[..1])
  }

  /** What the top of the popup shows. */
  datatype Picture = Avatar(color: string, initial: string) | Image(url: string)

  /** `renderProfileImage`: a blank or missing image gives the coloured
      initial; a path under `/uploads` gets the server's base URL in front;
      any other image is used as it is. */
  function ProfilePicture(img: Option<string>, name: string, baseUrl: string): (r: Picture)
    ensures r.Avatar? <==> img.None? || Trim(img.value) == []
    ensures r.Avatar? ==> r.color == ColorUtils.ColorForName(name) && r.initial == Initial(name)
    ensures r.Image? && StartsWith(img.value, "/uploads") ==> r.url == baseUrl + img.value
    ensures r.Image? && !StartsWith(img.value, "/uploads") ==> r.url == img.value
  {
    if img.Some? && Trim(img.value) != [] then
      Image(if StartsWith(img.value, "/uploads") then baseUrl + img.value else img.value)
    else
      Avatar(ColorUtils.ColorForName(name), Initial(name))
  }

  /** An image URL always ends with the stored path. */
  lemma ImageUrlEndsWithPath(img: string, name: string, baseUrl: string)
    requires Trim(img) != []
    ensures ProfilePicture(Some(img), name, baseUrl).Image?
    ensures var url := ProfilePicture(Some(img), name, baseUrl).url;
      |url| >= |img| && url[|url| - |img|..] == img
  {
  }

  /** The initial is the same for any spelling of the name. */
  lemma InitialIgnoresCase(name: string)
    ensures Initial(ToLower(name)) == Initial(name)
    ensures Initial(ToUpper(name)) == Initial(name)
  {
    if name != [] {
      assert ToLower(name)[0] == LowerChar(name[0]);
      assert ToUpper(name)[0] == UpperChar(name[0]);
      assert UpperChar(LowerChar(name[0])) == UpperChar(name[0]);
    }
  }

  /** Without a picture, the avatar does not depend on the case of the
      name: colour and initial are the same for any spelling. */
  lemma AvatarIgnoresCase(name: string, baseUrl: string)
    ensures ProfilePicture(None, ToLower(name), baseUrl) == ProfilePicture(None, name, baseUrl)
    ensures ProfilePicture(None, ToUpper(name), baseUrl) == ProfilePicture(None, name, baseUrl)
  {
    ColorUtils.ColorIgnoresCase(name);
    InitialIgnoresCase(name);
  }

  /** A whitespace-only image path is treated as no image. */
  lemma BlankImageIsAvatar(img: string, name: string, baseUrl: string)
    requires forall i :: 0 <= i < |img| ==> IsJsWhitespace(img[i])
    ensures ProfilePicture(Some(img), name, baseUrl) == ProfilePicture(None, name, baseUrl)
  {
    TrimEmptyIffBlank(img);
  }

  // ---------------------------------------------------------------------
  // The editor state

  /** The update guard of `handleUpdate`: a name with something besides
      whitespace. */
  predicate UpdateAllowed(name: string) {
    Trim(name) != []
  }

  lemma UpdateAllowedIff(name: string)
    ensures UpdateAllowed(name) <==> exists i :: 0 <= i < |name| && !IsJsWhitespace(name[i])
  {
    TrimEmptyIffBlank(name);
  }

  /** How the upload request ended: a body with the new image, an error
      status, or a failure. */
  datatype UploadResult = Uploaded(teamProfileImg: Option<string>) | UploadRejected | UploadError

  datatype UpdateOutcome = NeedName | UpdateFailed | Updated(info: TeamInfo)

  class ProfileEditor {
    const info: TeamInfo
    const manager: bool
    var name: string
    var desc: string
    var img: Option<string>
    var isUploading: bool

    constructor(teamInfo: TeamInfo, currentUserId: Scalar)
      ensures info == teamInfo && manager == IsManager(currentUserId, teamInfo)
      ensures name == teamInfo.teamName && desc == teamInfo.teamDesc && img == teamInfo.teamProfileImg
      ensures !isUploading
    {
      info := teamInfo;
      manager := StrictEq(currentUserId, teamInfo.userId);
      name := teamInfo.teamName;
      desc := teamInfo.teamDesc;
      img := teamInfo.teamProfileImg;
      isUploading := false;
    }

    /** The name input, rendered for the manager only. */
    method SetName(value: string)
      requires manager
      modifies this
      ensures name == value
      ensures desc == old(desc) && img == old(img) && isUploading == old(isUploading)
    {
      name := value;
    }

    /** The description input, rendered for the manager only. */
    method SetDesc(value: string)
      requires manager
      modifies this
      ensures desc == value
      ensures name == old(name) && img == old(img) && isUploading == old(isUploading)
    {
      desc := value;
    }

    /** `handleImageChange` up to the request: the checks, then the upload
        flag. The file input is the manager's and is disabled while an
        upload runs. */
    method HandleImageChange(file: Option<ImageFile>) returns (check: ImageCheck)
      requires manager && !isUploading
      modifies this
      ensures check == CheckImage(file)
      ensures isUploading <==> check == Accepted
      ensures name == old(name) && desc == old(desc) && img == old(img)
    {
      if file.None? {
        return NoFile;
      }
      if file.value.size > 5 * 1024 * 1024 {
        return TooLarge;
      }
      if !StartsWith(file.value.mime, "image/") {
        return NotImage;
      }
      isUploading := true;
      return Accepted;
    }

    /** The rest of `handleImageChange`: a successful upload shows the new
        image; the flag goes down however it ended. */
    method ImageUploadDone(result: UploadResult)
      modifies this
      ensures !isUploading
      ensures result.Uploaded? ==> img == result.teamProfileImg
      ensures !result.Uploaded? ==> img == old(img)
      ensures name == old(name) && desc == old(desc)
    {
      if result.Uploaded? {
        img := result.teamProfileImg;
      }
      isUploading := false;
    }

    /** `handleDeleteProfileImage`: after the confirmation and a successful
        DELETE the image is cleared, so the avatar shows. */
    method HandleDeleteProfileImage(confirmed: bool, ok: bool)
      requires manager
      modifies this
      ensures confirmed && ok ==> img == Some("")
      ensures !(confirmed && ok) ==> img == old(img)
      ensures name == old(name) && desc == old(desc) && isUploading == old(isUploading)
    {
      if !confirmed {
        return;
      }
      if ok {
        img := Some("");
      }
    }

    /** `handleUpdate`: a blank name is refused before any request; a
        successful PATCH hands back the team with the edited name,
        description and image. */
    method HandleUpdate(ok: bool) returns (outcome: UpdateOutcome)
      ensures outcome == NeedName <==> !UpdateAllowed(name)
      ensures outcome == UpdateFailed <==> UpdateAllowed(name) && !ok
      ensures outcome.Updated? ==>
        outcome.info == info.(teamName := name, teamDesc := desc, teamProfileImg := img)
    {
      if Trim(name) == [] {
        return NeedName;
      }
      if !ok {
        return UpdateFailed;
      }
      return Updated(info.(teamName := name, teamDesc := desc, teamProfileImg := img));
    }
  }

  /** After deleting the image the popup shows the avatar. */
  lemma ClearedImageShowsAvatar(name: string, baseUrl: string)
    ensures ProfilePicture(Some(""), name, baseUrl).Avatar?
  {
    assert Trim("") == [];
  }
}
