/**
 * The service introduction page's solution viewer: five solutions, each a
 * run of screenshots with one caption per screenshot, browsed with a
 * previous and a next button. Choosing another solution sends the slide
 * back to the first screenshot, but only in the effect that runs after the
 * render that shows the new solution.
 */
module ServiceIntro {
  import opened JsCore

  /** One entry of `solutionList`; `img` holds the imported asset names. */
  datatype Solution = Solution(title: string, img: seq<string>, imgDesc: seq<string>)

  /** `solutionList`, in its order. */
  const SolutionList: seq<Solution> := [
    Solution("간편한 투두 관리",
      ["solution-todo.png", "solution-todo2.png", "solution-todo3.png",
       "solution-todo4.png", "solution-todo5.png", "solution-todo6.png"],
      ["팀 추가 버튼을 통해 새로운 팀 스페이스 추가",
       "목록 관리 버튼으로 내 목적에 맞는 목록 추가",
       "목록 보드를 통해 팀 스페이스 내의 목록 확인",
       "목록보드 하단의 +버튼으로 투두 추가",
       "투두 클릭 시 상세 정보 열람 및 파일 제출 가능",
       "캘린더에서 투두의 마감일 확인"]),
    Solution("팀 협업 지원",
      ["solution-team.png", "solution-team2.png", "solution-team3.png"],
      ["멤버 초대 버튼을 통해 팀원 초대",
       "이메일 기반 팀원 추가",
       "팀 멤버에서 팀원 확인"]),
    Solution("이번 주 투두 확인",
      ["solution-week.png", "solution-week2.png"],
      ["메인에서 나의 이번 주 투두를 한번에 확인",
       "메인에서도 파일 관리 가능"]),
    Solution("파일 업로드 및 관리",
      ["solution-file.png", "solution-file2.png", "solution-file3.png", "solution-file4.png"],
      ["투두 생성 시 제출 파일 지정",
       "형식에 맞는 파일 제출",
       "파일 형식 확인 및 자동 변환",
       "스토리지를 통한 파일 확인"]),
    Solution("투두 접근 권한 관리",
      ["solution-security.png", "solution-security2.png", "solution-security3.png"],
      ["담당자 지정을 통한 파일 제출자 제한",
       "권한 없는 사용자는 투두 수정/ 삭제 접근 차단",
       "담당자가 아닌 사용자는 파일 제출 불가"])
  ]

  /** The most screenshots any solution has. */
  const MaxSlides: nat := 6

  /** Every solution has at least one screenshot and a caption for each,
      and none has more than `MaxSlides`. */
  lemma SolutionsWellFormed()
    ensures |SolutionList| == 5
    ensures forall k :: 0 <= k < |SolutionList| ==>
      1 <= |SolutionList[k].img| <= MaxSlides && |SolutionList[k].imgDesc| == |SolutionList[k].img|
    ensures |SolutionList[0].img| == MaxSlides
  {
  }

  /** The number of screenshots of solution `k`. */
  function SlideCount(k: nat): (n: nat)
    requires k < |SolutionList|
    ensures 1 <= n <= MaxSlides
    ensures n == |SolutionList[k].imgDesc|
  {
    SolutionsWellFormed();
    |SolutionList[k].img|
  }

  class Viewer {
    var activeSolution: nat
    var currentSlide: nat
    /** The reset effect has been scheduled by a change of solution and has
        not run yet. */
    var resetPending: bool

    /** The slide never leaves the longest run; once the reset has run it
        lies within the active solution's screenshots. */
    predicate Valid()
      reads this
    {
      activeSolution < |SolutionList| && currentSlide < MaxSlides
      && (!resetPending ==> currentSlide < SlideCount(activeSolution))
    }

    constructor()
      ensures Valid()
      ensures activeSolution == 0 && currentSlide == 0 && !resetPending
    {
      activeSolution := 0;
      currentSlide := 0;
      resetPending := false;
    }

    /** The screenshot the render shows; `None` is the `undefined` a stale
        slide reads past the end of a shorter run. */
    function ShownImage(): (r: Option<string>)
      requires Valid()
      reads this
      ensures !resetPending ==> r == Some(SolutionList[activeSolution].img[currentSlide])
    {
      var sol := SolutionList[activeSolution];
      if currentSlide < |sol.img| then Some(sol.img[currentSlide]) else None
    }

    /** The caption under the screenshot, defined exactly when the image
        is. */
    function ShownCaption(): (r: Option<string>)
      requires Valid()
      reads this
      ensures r.Some? <==> ShownImage().Some?
      ensures !resetPending ==> r == Some(SolutionList[activeSolution].imgDesc[currentSlide])
    {
      SolutionsWellFormed();
      var sol := SolutionList[activeSolution];
      if currentSlide < |sol.imgDesc| then Some(sol.imgDesc[currentSlide]) else None
    }

    /** The previous button's `disabled`. */
    predicate PrevDisabled()
      reads this
    {
      currentSlide == 0
    }

    /** The next button's `disabled`. */
    predicate NextDisabled()
      requires Valid()
      reads this
    {
      currentSlide == SlideCount(activeSolution) - 1
    }

    /** A click on a solution's title. The reset is scheduled only when the
        solution actually changes. */
    method SelectSolution(idx: nat)
      requires Valid() && idx < |SolutionList|
      modifies this
      ensures Valid()
      ensures activeSolution == idx && currentSlide == old(currentSlide)
      ensures resetPending == (old(resetPending) || idx != old(activeSolution))
    {
      if idx != activeSolution {
        resetPending := true;
      }
      activeSolution := idx;
    }

    /** The effect on `activeSolution`: back to the first screenshot. */
    method ResetEffect()
      requires Valid()
      modifies this
      ensures Valid()
      ensures !resetPending && activeSolution == old(activeSolution)
      ensures currentSlide == if old(resetPending) then 0 else old(currentSlide)
    {
      if resetPending {
        currentSlide := 0;
        resetPending := false;
      }
    }

    /** `handleNextSlide`: one step on, unless this is the last screenshot. */
    method NextSlide()
      requires Valid()
      modifies this
      ensures Valid()
      ensures activeSolution == old(activeSolution) && resetPending == old(resetPending)
      ensures old(currentSlide) < SlideCount(activeSolution) - 1 ==> currentSlide == old(currentSlide) + 1
      ensures old(currentSlide) >= SlideCount(activeSolution) - 1 ==> currentSlide == old(currentSlide)
      ensures !resetPending ==> (currentSlide == old(currentSlide) <==> old(NextDisabled()))
    {
      if currentSlide < |SolutionList[activeSolution].img| - 1 {
        currentSlide := currentSlide + 1;
      }
    }

    /** `handlePrevSlide`: one step back, unless this is the first. */
    method PrevSlide()
      requires Valid()
      modifies this
      ensures Valid()
      ensures activeSolution == old(activeSolution) && resetPending == old(resetPending)
      ensures old(currentSlide) > 0 ==> currentSlide == old(currentSlide) - 1
      ensures old(currentSlide) == 0 ==> currentSlide == 0
      ensures currentSlide == old(currentSlide) <==> old(PrevDisabled())
    {
      if currentSlide > 0 {
        currentSlide := currentSlide - 1;
      }
    }
  }

  /** On the last screenshot of the first solution, switching to the
      third renders once with no screenshot and no caption; the reset then
      shows the first screenshot of the third solution. */
  method StaleSlideAfterSwitch() returns (v: Viewer, staleImage: Option<string>, afterReset: Option<string>)
    ensures staleImage == None
    ensures afterReset == Some("solution-week.png")
  {
    v := new Viewer();
    v.NextSlide();
    v.NextSlide();
    v.NextSlide();
    v.NextSlide();
    v.NextSlide();
    v.SelectSolution(2);
    staleImage := v.ShownImage();
    v.ResetEffect();
    afterReset := v.ShownImage();
  }
}
