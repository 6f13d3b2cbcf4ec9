/**
 * The post formatter: turns a job record and the job's link into the text of
 * a social-media post. The text is a header naming the company, the role and
 * the level, a skills heading, one line per required skill, an apply line
 * carrying the link, and a hashtag line.
 */
module LinkedinPost {
  import opened GeminiClient

  // Decoration of the post: its indentation and its emoji (one code point each).
  const Indent := "    "
  const Rocket := "\U{1F680}"
  const Envelope := "\U{1F4E9}"
  const PointRight := "\U{1F449}"

  /** How many characters of `str(level)` the formatter drops. */
  const LevelPrefixLength: nat := 10

  // The fixed text around the fields of the header.
  const HeaderLead := "\n" + Indent + Rocket + " # "
  const AfterCompany := " Hiring! " + Rocket + "\n" + "\n" + Indent + "Role: "
  const AfterTitle := "! \n" + Indent + "Job Level: "
  const AfterLevel := "\n" + "\n" + Indent

  /** The heading of the skills list, emitted even when there are no skills. */
  const SkillsHeading := "Skills Required: \n"
  /** What ends every skill line. */
  const SkillEnd := " \n"

  // The fixed text around the link in the apply segment.
  const ApplyLead := "\n" + "\n" + Indent + Envelope + " Interested? Apply now " + PointRight + " "
  const ApplyTrail := "\n" + Indent + "\n" + Indent

  /** The fixed tags that open the hashtag line. */
  const FixedTags := "#Hiring #CareerOpportunity #JoinUs "
  const TagsEnd := " " + Rocket + "\n" + Indent

  /** Python's `s[k:]`: the characters from position `k` on, empty past the end. */
  function SliceFrom(s: string, k: nat): string {
    if k <= |s| then s[k..] else ""
  }

  /** How the level is rendered: `str(level)[10:]`. */
  function LevelText(level: JobLevel): string {
    SliceFrom(EnumStr(level), LevelPrefixLength)
  }

  /**
   * The positional slice yields the member's name, because the prefix it drops
   * is exactly `"JOB_LEVEL."`; it never yields the member's value.
   */
  lemma LevelTextIsMemberName(level: JobLevel)
    ensures LevelText(level) == level.Name()
    ensures LevelText(level) != level.Value()
  {
    assert |EnumClassName + "."| == LevelPrefixLength;
    assert EnumStr(level)[LevelPrefixLength..] == level.Name();
  }

  /** The header: company, title and level, with their decoration. */
  function HeaderSegment(job: JobDescription): string {
    HeaderLead + job.companyName + AfterCompany + job.jobTitle + AfterTitle
      + LevelText(job.levelOfJob) + AfterLevel
  }

  /** The line for one skill. */
  function SkillLine(skill: string): string {
    skill + SkillEnd
  }

  /** The skill lines, one per skill, in the record's order. */
  function SkillLines(skills: seq<string>): (lines: seq<string>)
    ensures |lines| == |skills|
    ensures forall i :: 0 <= i < |skills| ==> lines[i] == SkillLine(skills[i])
  {
    if skills == [] then [] else [SkillLine(skills[0])] + SkillLines(skills[1..])
  }

  /** The call to action, carrying the link. */
  function ApplySegment(link: string): string {
    ApplyLead + link + ApplyTrail
  }

  /** The closing line: the fixed tags, then the record's hashtag. */
  function HashtagSegment(hashtag: string): string {
    FixedTags + hashtag + TagsEnd
  }

  /** The segments of the post, in the order in which they appear. */
  function Segments(job: JobDescription, link: string): seq<string> {
    [HeaderSegment(job), SkillsHeading] + SkillLines(job.requiredSkills)
      + [ApplySegment(link), HashtagSegment(job.hashtag)]
  }

  /** The segments written one after the other. */
  function Concat(segs: seq<string>): string {
    if segs == [] then "" else Concat(segs[..|segs| - 1]) + segs[|segs| - 1]
  }

  /** The text of the post for a record and a link. */
  function PostText(job: JobDescription, link: string): string {
    Concat(Segments(job, link))
  }

  /** All the skill lines, written one after the other. */
  function SkillBlock(skills: seq<string>): string {
    Concat(SkillLines(skills))
  }

  /**
   * `linkedin_post_creation`: the header first, then the skills heading, one
   * line per skill in a loop, then the apply and hashtag tail. It has no
   * failure branch: every record and link give a post.
   */
  method LinkedinPostCreation(job: JobDescription, link: string) returns (post: string)
    ensures post == PostText(job, link)
  {
    post := HeaderSegment(job);
    post := post + SkillsHeading;
    for index := 0 to |job.requiredSkills|
      invariant post == HeaderSegment(job) + SkillsHeading + SkillBlock(job.requiredSkills[..index])
    {
      SkillBlockSnoc(job.requiredSkills, index);
      post := post + SkillLine(job.requiredSkills[index]);
    }
    assert job.requiredSkills[..|job.requiredSkills|] == job.requiredSkills;
    post := post + ApplySegment(link) + HashtagSegment(job.hashtag);
    PostDecomposition(job, link);
  }

  /** The lines of the first `i + 1` skills are those of the first `i`, then line `i`. */
  lemma SkillBlockSnoc(skills: seq<string>, i: nat)
    requires i < |skills|
    ensures SkillBlock(skills[..i + 1]) == SkillBlock(skills[..i]) + SkillLine(skills[i])
  {
    assert skills[..i + 1] == skills[..i] + [skills[i]];
    SkillLinesAppend(skills[..i], [skills[i]]);
    ConcatSnoc(SkillLines(skills[..i]), SkillLine(skills[i]));
  }

  /** Writing one more segment appends it. */
  lemma ConcatSnoc(segs: seq<string>, s: string)
    ensures Concat(segs + [s]) == Concat(segs) + s
  {
    assert (segs + [s])[..|segs|] == segs;
  }

  /** Writing two runs of segments writes the first run, then the second. */
  lemma {:induction false} ConcatAppend(a: seq<string>, b: seq<string>)
    ensures Concat(a + b) == Concat(a) + Concat(b)
    decreases |b|
  {
    if b == [] {
      assert a + b == a;
    } else {
      var init, last := b[..|b| - 1], b[|b| - 1];
      assert b == init + [last];
      assert a + b == (a + init) + [last];
      ConcatSnoc(a + init, last);
      ConcatSnoc(init, last);
      ConcatAppend(a, init);
    }
  }

  /** Writing two segments gives the first, then the second. */
  lemma ConcatPair(a: string, b: string)
    ensures Concat([a, b]) == a + b
  {
    ConcatSnoc([a], b);
    ConcatSnoc([], a);
    assert [a] + [b] == [a, b];
  }

  /** Writing two segments, a run of segments, then two more segments. */
  lemma ConcatFrame(h: string, s: string, lines: seq<string>, a: string, t: string)
    ensures Concat([h, s] + lines + [a, t]) == h + s + Concat(lines) + a + t
  {
    ConcatAppend([h, s] + lines, [a, t]);
    ConcatAppend([h, s], lines);
    ConcatPair(h, s);
    ConcatPair(a, t);
  }

  /**
   * The post is, in this order: the header, the skills heading, the skill
   * lines, the apply segment and the hashtag segment.
   */
  lemma PostDecomposition(job: JobDescription, link: string)
    ensures PostText(job, link)
      == HeaderSegment(job) + SkillsHeading + SkillBlock(job.requiredSkills)
         + ApplySegment(link) + HashtagSegment(job.hashtag)
  {
    ConcatFrame(HeaderSegment(job), SkillsHeading, SkillLines(job.requiredSkills),
      ApplySegment(link), HashtagSegment(job.hashtag));
  }

  /**
   * With no skills, the skills heading is still there and is followed at once
   * by the apply and hashtag segments.
   */
  lemma EmptySkillsKeepsHeading(job: JobDescription, link: string)
    requires job.requiredSkills == []
    ensures PostText(job, link)
      == HeaderSegment(job) + SkillsHeading + ApplySegment(link) + HashtagSegment(job.hashtag)
  {
    PostDecomposition(job, link);
    DropEmpty(PostText(job, link), HeaderSegment(job) + SkillsHeading, SkillBlock([]),
      ApplySegment(link), HashtagSegment(job.hashtag));
  }

  /** An empty part of a concatenation can be dropped. */
  lemma DropEmpty(p: string, x: string, e: string, a: string, t: string)
    requires p == x + e + a + t && e == ""
    ensures p == x + a + t
  {
    assert x + e == x;
  }

  /**
   * Skill `i` is written exactly as given and followed by `" \n"`, right after
   * the lines of the skills before it; the lines of the skills up to and
   * including `i` end where line `i` ends, so the lines keep the record's order.
   */
  lemma SkillBlockAt(skills: seq<string>, i: nat)
    requires i < |skills|
    ensures var o := |SkillBlock(skills[..i])|;
      && o + |skills[i]| + |SkillEnd| <= |SkillBlock(skills)|
      && SkillBlock(skills)[o..o + |skills[i]| + |SkillEnd|] == skills[i] + SkillEnd
      && |SkillBlock(skills[..i + 1])| == o + |skills[i]| + |SkillEnd|
  {
    var before, after := skills[..i], skills[i + 1..];
    assert skills == before + [skills[i]] + after;
    SkillLinesAppend(before + [skills[i]], after);
    SkillLinesAppend(before, [skills[i]]);
    var lb, la := SkillLines(before), SkillLines(after);
    assert SkillLines(skills) == lb + [SkillLine(skills[i])] + la;
    ConcatAppend(lb + [SkillLine(skills[i])], la);
    ConcatSnoc(lb, SkillLine(skills[i]));
    assert skills[..i + 1] == before + [skills[i]];
  }

  /** The skill lines of two runs of skills are the lines of the first, then of the second. */
  lemma SkillLinesAppend(a: seq<string>, b: seq<string>)
    ensures SkillLines(a + b) == SkillLines(a) + SkillLines(b)
  {
  }

  /** Skill `i` sits in the post, as given and followed by `" \n"`, after the skill lines before it. */
  lemma PostSkillAt(job: JobDescription, link: string, i: nat)
    requires i < |job.requiredSkills|
    ensures var o := |HeaderSegment(job) + SkillsHeading| + |SkillBlock(job.requiredSkills[..i])|;
      && o + |job.requiredSkills[i]| + |SkillEnd| <= |PostText(job, link)|
      && PostText(job, link)[o..o + |job.requiredSkills[i]| + |SkillEnd|]
         == job.requiredSkills[i] + SkillEnd
  {
    var x, o := HeaderSegment(job) + SkillsHeading, |SkillBlock(job.requiredSkills[..i])|;
    var n := |job.requiredSkills[i]| + |SkillEnd|;
    PostDecomposition(job, link);
    SkillBlockAt(job.requiredSkills, i);
    MidSlice(PostText(job, link), x, SkillBlock(job.requiredSkills),
      ApplySegment(link), HashtagSegment(job.hashtag), o, n);
  }

  /** A slice inside the second part of a concatenation is a slice of that part. */
  lemma MidSlice(p: string, x: string, y: string, a: string, t: string, o: nat, n: nat)
    requires p == x + y + a + t
    requires o + n <= |y|
    ensures |x| + o + n <= |p|
    ensures p[|x| + o..|x| + o + n] == y[o..o + n]
  {
  }

  /** Replacing the empty text between `l` and `t` by `k` splices `k` in at one offset. */
  lemma Splice(full: string, empty: string, q: string, l: string, k: string, t: string, r: string)
    requires full == q + (l + k + t) + r
    requires empty == q + (l + "" + t) + r
    ensures |q| + |l| <= |empty| && |q| + |l| + |k| <= |full|
    ensures full == empty[..|q| + |l|] + k + empty[|q| + |l|..]
    ensures full[|q| + |l|..|q| + |l| + |k|] == k
  {
    assert empty[..|q| + |l|] == q + l;
    assert empty[|q| + |l|..] == t + r;
  }

  /** Where the fields of the post sit, for any fixed text around them. */
  lemma FieldSlices(p: string, hl: string, c: string, ac: string, t: string, at: string,
                    l: string, al: string, s: string, b: string, apl: string, k: string,
                    atr: string, ft: string, h: string, te: string)
    returns (o1: nat, o2: nat, o3: nat, o4: nat, o5: nat, o6: nat)
    requires p == (hl + c + ac + t + at + l + al) + s + b + (apl + k + atr) + (ft + h + te)
    ensures o1 + |c| <= o2 && o2 + |t| <= o3 && o3 + |l| <= o4
    ensures o4 + |b| <= o5 && o5 + |k| <= o6 && o6 + |h| <= |p|
    ensures p[o1..o1 + |c|] == c && p[o2..o2 + |t|] == t && p[o3..o3 + |l|] == l
    ensures p[o4..o4 + |b|] == b && p[o5..o5 + |k|] == k && p[o6..o6 + |h|] == h
  {
    o1 := |hl|;
    o2 := o1 + |c| + |ac|;
    o3 := o2 + |t| + |at|;
    o4 := o3 + |l| + |al| + |s|;
    o5 := o4 + |b| + |apl|;
    o6 := o5 + |k| + |atr| + |ft|;
  }

  /** How many times `c` occurs in `s`. */
  function Occurrences(s: string, c: char): nat {
    if s == "" then 0 else Occurrences(s[..|s| - 1], c) + (if s[|s| - 1] == c then 1 else 0)
  }

  /** Occurrences in a concatenation add up. */
  lemma {:induction false} OccurrencesAppend(a: string, b: string, c: char)
    ensures Occurrences(a + b, c) == Occurrences(a, c) + Occurrences(b, c)
    decreases |b|
  {
    if b == "" {
      assert a + b == a;
    } else {
      assert (a + b)[..|a + b| - 1] == a + b[..|b| - 1];
      OccurrencesAppend(a, b[..|b| - 1], c);
    }
  }

  /**
   * When no skill contains a line break, the skill block has exactly one line
   * break per skill: there are exactly as many skill lines as skills.
   */
  lemma {:induction false} SkillLineCount(skills: seq<string>)
    requires forall i :: 0 <= i < |skills| ==> '\n' !in skills[i]
    ensures Occurrences(SkillBlock(skills), '\n') == |skills|
    decreases |skills|
  {
    if skills != [] {
      var init, last := skills[..|skills| - 1], skills[|skills| - 1];
      assert skills == init + [last];
      SkillLinesAppend(init, [last]);
      ConcatSnoc(SkillLines(init), SkillLine(last));
      SkillLineCount(init);
      OccurrencesAppend(SkillBlock(init), last + SkillEnd, '\n');
      OccurrencesAppend(last, SkillEnd, '\n');
      NoOccurrences(last, '\n');
      assert SkillEnd[..1] == " ";
    }
  }

  /** A character that is not in `s` occurs in it zero times. */
  lemma {:induction false} NoOccurrences(s: string, c: char)
    requires c !in s
    ensures Occurrences(s, c) == 0
    decreases |s|
  {
    if s != "" {
      NoOccurrences(s[..|s| - 1], c);
    }
  }

  /** Where the link starts in the post of `job`. */
  function LinkOffset(job: JobDescription): nat {
    |HeaderSegment(job) + SkillsHeading + SkillBlock(job.requiredSkills)| + |ApplyLead|
  }

  /**
   * The link is placed once, in the apply segment, after every skill line:
   * the post is the post for an empty link with the link put in at a single
   * offset that does not depend on the link.
   */
  lemma LinkSlot(job: JobDescription, link: string)
    ensures LinkOffset(job) + |link| <= |PostText(job, link)|
    ensures PostText(job, link)[LinkOffset(job)..LinkOffset(job) + |link|] == link
    ensures LinkOffset(job) <= |PostText(job, "")|
    ensures PostText(job, link)
      == PostText(job, "")[..LinkOffset(job)] + link + PostText(job, "")[LinkOffset(job)..]
    ensures |HeaderSegment(job) + SkillsHeading + SkillBlock(job.requiredSkills)| <= LinkOffset(job)
  {
    var q := HeaderSegment(job) + SkillsHeading + SkillBlock(job.requiredSkills);
    assert LinkOffset(job) == |q| + |ApplyLead|;
    PostDecomposition(job, link);
    PostDecomposition(job, "");
    Splice(PostText(job, link), PostText(job, ""), q, ApplyLead, link, ApplyTrail,
      HashtagSegment(job.hashtag));
  }

  /** The post ends with the fixed tags, then the record's hashtag. */
  lemma EndsWithHashtagLine(job: JobDescription, link: string)
    ensures var t := FixedTags + job.hashtag + TagsEnd;
      && |t| <= |PostText(job, link)|
      && PostText(job, link)[|PostText(job, link)| - |t|..] == t
  {
    PostDecomposition(job, link);
  }

  /**
   * Company, title, level, skills, link and hashtag are all in the post, in
   * this order, each exactly as the record (or the caller) gives it.
   */
  lemma FieldsInOrder(job: JobDescription, link: string)
    returns (company: nat, title: nat, level: nat, skills: nat, apply: nat, tag: nat)
    ensures company + |job.companyName| <= title
    ensures title + |job.jobTitle| <= level
    ensures level + |LevelText(job.levelOfJob)| <= skills
    ensures skills + |SkillBlock(job.requiredSkills)| <= apply
    ensures apply + |link| <= tag
    ensures tag + |job.hashtag| <= |PostText(job, link)|
    ensures PostText(job, link)[company..company + |job.companyName|] == job.companyName
    ensures PostText(job, link)[title..title + |job.jobTitle|] == job.jobTitle
    ensures PostText(job, link)[level..level + |LevelText(job.levelOfJob)|] == LevelText(job.levelOfJob)
    ensures PostText(job, link)[skills..skills + |SkillBlock(job.requiredSkills)|]
      == SkillBlock(job.requiredSkills)
    ensures PostText(job, link)[apply..apply + |link|] == link
    ensures PostText(job, link)[tag..tag + |job.hashtag|] == job.hashtag
  {
    PostDecomposition(job, link);
    company, title, level, skills, apply, tag := FieldSlices(PostText(job, link),
      HeaderLead, job.companyName, AfterCompany, job.jobTitle, AfterTitle,
      LevelText(job.levelOfJob), AfterLevel, SkillsHeading, SkillBlock(job.requiredSkills),
      ApplyLead, link, ApplyTrail, FixedTags, job.hashtag, TagsEnd);
  }

  /** Location, experience and the reasons to join never reach the post. */
  lemma OmittedFieldsIgnored(j1: JobDescription, j2: JobDescription, link: string)
    requires j1.companyName == j2.companyName && j1.jobTitle == j2.jobTitle
    requires j1.levelOfJob == j2.levelOfJob && j1.requiredSkills == j2.requiredSkills
    requires j1.hashtag == j2.hashtag
    ensures PostText(j1, link) == PostText(j2, link)
  {
  }
}
