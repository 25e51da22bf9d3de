/** The community post form (`src/app/communities/create/page.tsx`): its
    field map, the chosen images and the submission. The submission only
    waits and reports; nothing is stored. */
module CommunityCreate {
  import opened Wrappers
  import opened Text
  import opened Records
  import PostDraft

  /** The fields the form starts with. */
  const FieldNames := ["title", "content", "difficulty", "location", "instagramLink"]

  const TooManyImagesAlert := "이미지는 최대 5개까지 업로드할 수 있습니다."
  const MissingFieldsAlert := "필수 항목을 모두 입력해주세요."
  const CreatedAlert := "게시글이 성공적으로 작성되었습니다!"
  const CreateErrorAlert := "게시글 작성 중 오류가 발생했습니다."

  /** The value of one field. */
  function Field(form: map<string, string>, name: string): (r: string)
    ensures name in form ==> r == form[name]
  {
    if name in form then form[name] else ""
  }

  /** The required fields: a title and content that are not blank, and a
      difficulty and a location chosen. */
  predicate Complete(form: map<string, string>) {
    && !IsBlank(Field(form, "title"))
    && !IsBlank(Field(form, "content"))
    && Field(form, "difficulty") != ""
    && Field(form, "location") != ""
  }

  /** `handleImageUpload`'s test: `added` more images next to `chosen`
      stay within five. */
  predicate BatchFits(chosen: nat, added: nat) {
    chosen + added <= MaxImages
  }

  class CommunityDraft {
    var formData: map<string, string>
    var images: seq<File>
    var isSubmitting: bool
    var pushed: seq<string>

    /** Every field the form started with is still there, at most five
        images are chosen, and no submission is in flight between
        handlers. */
    ghost predicate Valid()
      reads this
    {
      && (forall name :: name in FieldNames ==> name in formData)
      && |images| <= MaxImages
      && !isSubmitting
    }

    constructor ()
      ensures Valid()
      ensures formData == map["title" := "", "content" := "", "difficulty" := "", "location" := "", "instagramLink" := ""]
      ensures images == [] && pushed == []
    {
      formData := map["title" := "", "content" := "", "difficulty" := "", "location" := "", "instagramLink" := ""];
      images := [];
      isSubmitting := false;
      pushed := [];
    }

    /** `handleInputChange` and `handleSelectChange`: the named field takes
        the value and no other field changes. */
    method SetField(name: string, value: string)
      requires Valid()
      modifies this
      ensures Valid()
      ensures formData == old(formData)[name := value]
      ensures images == old(images) && pushed == old(pushed)
    {
      formData := formData[name := value];
    }

    /** `handleImageUpload`: a batch that would pass five images is refused
        whole; otherwise it is added after the chosen ones, in order. */
    method HandleImageUpload(files: seq<File>) returns (alert: Option<string>)
      requires Valid()
      modifies this
      ensures Valid()
      ensures !BatchFits(|old(images)|, |files|) ==> alert == Some(TooManyImagesAlert) && images == old(images)
      ensures BatchFits(|old(images)|, |files|) ==> alert.None? && images == old(images) + files
      ensures formData == old(formData) && pushed == old(pushed)
    {
      if !BatchFits(|images|, |files|) {
        return Some(TooManyImagesAlert);
      }
      images := images + files;
      alert := None;
    }

    /** `removeImage`: only the image at that position goes. */
    method RemoveImage(index: int)
      requires Valid()
      modifies this
      ensures Valid()
      ensures images == PostDraft.RemoveAt(old(images), index)
      ensures formData == old(formData) && pushed == old(pushed)
    {
      images := PostDraft.RemoveAt(images, index);
    }

    /** `handleSubmit`, given whether the wait throws: an incomplete form
        is refused; a complete one is reported created and the router
        returns to the list, unless the wait throws; the submitting flag is
        down afterwards either way. */
    method HandleSubmit(threw: bool) returns (alert: string)
      requires Valid()
      modifies this
      ensures Valid()
      ensures formData == old(formData) && images == old(images)
      ensures !Complete(formData) ==> alert == MissingFieldsAlert && pushed == old(pushed)
      ensures Complete(formData) && !threw ==> alert == CreatedAlert && pushed == old(pushed) + ["/communities"]
      ensures Complete(formData) && threw ==> alert == CreateErrorAlert && pushed == old(pushed)
    {
      if !Complete(formData) {
        return MissingFieldsAlert;
      }
      isSubmitting := true;
      if threw {
        alert := CreateErrorAlert;
      } else {
        alert := CreatedAlert;
        pushed := pushed + ["/communities"];
      }
      isSubmitting := false;
    }

    /** The add-image slot. */
    predicate ShowsAddSlot()
      reads this
    {
      |images| < MaxImages
    }
  }

  /** The add slot shows exactly when `handleImageUpload` would accept one
      more image; once it is hidden, five are chosen and every non-empty
      batch is refused. */
  lemma AddSlotMeansRoom(d: CommunityDraft)
    requires d.Valid()
    ensures d.ShowsAddSlot() <==> BatchFits(|d.images|, 1)
    ensures !d.ShowsAddSlot() ==> |d.images| == MaxImages && forall n: nat :: n >= 1 ==> !BatchFits(|d.images|, n)
  {
  }
}
