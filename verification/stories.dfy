/** The shared story shapes (`Story`, `AiStoryResponse`) and the description
    text `GenerateAiStory` builds from a model reply. */
module Stories {
  import opened Wrappers
  import opened Text

  /** Only `ToDo` is ever assigned by the modelled code; the enum's other members are carried by name. */
  datatype StoryStatus = ToDo | OtherStatus(name: string)

  /** Only `Low` is ever assigned by the modelled code; the enum's other members are carried by name. */
  datatype StoryPriority = Low | OtherPriority(name: string)

  /** `Story`; the `Guid` is its text and the two `DateTime`s are tick counts. */
  datatype Story = Story(
    id: string,
    title: string,
    description: string,
    status: StoryStatus,
    priority: StoryPriority,
    storyPoints: Option<int>,
    isAiGenerated: bool,
    dateCreated: int,
    lastUpdated: int
  )

  /** `AiStoryResponse`: the JSON object the model is asked to return. */
  datatype AiStoryResponse = AiStoryResponse(title: string, userStory: string, acceptanceCriteria: seq<string>)

  const CriteriaHeader: string := "\n\nAcceptance Criteria:\n"

  /** `•` followed by a space. */
  const Bullet: string := "\U{2022} "

  function Bulleted(criteria: seq<string>): seq<string> {
    seq(|criteria|, i requires 0 <= i < |criteria| => Bullet + criteria[i])
  }

  /** The story description: the user story, the criteria header, then one
      bulleted line per acceptance criterion, joined with newlines. */
  function Description(response: AiStoryResponse): string {
    response.userStory + CriteriaHeader + Join("\n", Bulleted(response.acceptanceCriteria))
  }

  /** Reading the criteria back out of the bulleted block: split at newlines
      and drop each line's bullet. */
  function Unbulleted(lines: seq<string>): seq<string> {
    seq(|lines|, i requires 0 <= i < |lines| =>
      if |Bullet| <= |lines[i]| && lines[i][..|Bullet|] == Bullet then lines[i][|Bullet|..] else lines[i])
  }

  /** The description begins with the user story and the criteria header, and
      the criteria can be read back from what follows: nothing when there are
      none, and otherwise exactly the criteria, in order, as long as no
      criterion contains a newline of its own. */
  lemma DescriptionRoundTrip(response: AiStoryResponse)
    requires forall k :: 0 <= k < |response.acceptanceCriteria| ==> '\n' !in response.acceptanceCriteria[k]
    ensures var d := Description(response);
      var n := |response.userStory| + |CriteriaHeader|;
      && n <= |d|
      && d[..|response.userStory|] == response.userStory
      && d[|response.userStory|..n] == CriteriaHeader
      && (response.acceptanceCriteria == [] ==> d[n..] == [])
      && (response.acceptanceCriteria != [] ==> Unbulleted(Split(d[n..], '\n')) == response.acceptanceCriteria)
  {
    var cs := response.acceptanceCriteria;
    var d := Description(response);
    var n := |response.userStory| + |CriteriaHeader|;
    var block := Join("\n", Bulleted(cs));
    assert d == (response.userStory + CriteriaHeader) + block;
    assert d[n..] == block;
    if cs != [] {
      var lines := Bulleted(cs);
      forall k | 0 <= k < |lines|
        ensures '\n' !in lines[k]
      {
        assert lines[k] == Bullet + cs[k];
      }
      SplitJoin(lines, '\n');
      forall k | 0 <= k < |cs|
        ensures Unbulleted(lines)[k] == cs[k]
      {
        assert lines[k][..|Bullet|] == Bullet;
        assert lines[k][|Bullet|..] == cs[k];
      }
    }
  }
}
