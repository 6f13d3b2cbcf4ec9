# LinkedIn job-post agent: formatter and text extractor

This project models the two deterministic text transformations of a small
pipeline that turns a job-posting web page into a LinkedIn post:

- the **post formatter** (`linkedin_post_creation`), which turns a structured
  job record and the job's link into the post text: a header naming the
  company, the role and the level, a `Skills Required:` heading, one line per
  skill, an apply line carrying the link, and a hashtag line;
- the **text extractor** (`extract_text_from_url`), which maps the outcome of
  fetching and parsing the page to its result: `None` for a request failure,
  an escaping exception for any other failure, and otherwise the texts of the
  page's paragraphs joined with `"\n"`.

It also models the guard and the control flow of the script that chains the
stages (`src/main.py`). The language-model service and the publisher's HTTP
request are parameters: functions that give their outcome.

Modules, one per modelled source file, plus `Wrappers` for `Option`:

- `GeminiClient` (gemini_client.dfy): the `JOB_LEVEL` enumeration as
  `JobLevel` (its member names and values), `str(level)` as `EnumStr`, and the
  eight-field record `JobDescription`.
- `LinkedinPost` (linkedin_post.dfy): the formatter. `PostText` is the
  specification: the segments of the post (`Segments`) written one after the
  other (`Concat`). `LinkedinPostCreation` is the source's loop, which appends
  to the post string step by step, and is proved to produce `PostText`. The
  lemmas state the layout of the post.
- `JobLinkTextExtraction` (job_link_text_extraction.dfy): the outcome
  datatype, `ExtractTextFromUrl`, `JoinLines` (Python's `"\n".join`) and
  `SplitLines` (Python's `str.split("\n")`). `SplitLines` is the inverse
  partner used to prove that the join loses nothing.
- `Pipeline` (pipeline.dfy): `BeforePublish` (the script up to the
  publisher), `Run` (one whole run), and the lemmas on when a run halts,
  crashes, hands the post over, and gets it posted.
- `Wrappers` (wrappers.dfy): `Option`.

Python semantics that the model writes out:

- `str(level)` is `"JOB_LEVEL." + name`.
- `s[10:]` is empty past the end of `s` (`SliceFrom`).
- Strings are sequences of code points, so each emoji is one `char`.
- Truthiness of the extractor's result means "neither `None` nor `""`".

Facts about the source that the model keeps:

- The level is rendered as the member's name (`MID`), not as the member's
  value (`Mid`, src/llm/gemini_client.py:12-14).
- `hashtag` is a single `str` (src/llm/gemini_client.py:24), although its
  field description asks for several hashtags.
- Only request failures are caught. Any other failure during the fetch or the
  parse escapes the extractor.
- Nothing in the script catches an error of the model stage or of the
  publisher's request, so those escape the script.

## Model

| member | source | states |
|---|---|---|
| `LinkedinPost.LinkedinPostCreation` | src/utils/linkedin_post.py:1-19 | the header, the skills heading, one appended line per skill and the tail build exactly `PostText(job, link)`; no precondition, so every record and link give a post |
| `LinkedinPost.LevelTextIsMemberName` | src/utils/linkedin_post.py:6 | `str(level)[10:]` is the member name (`ENTRY`/`MID`/`SENIOR`) and never the member value (`Entry`/`Mid`/`Senior`) |
| `LinkedinPost.SkillLines` | src/utils/linkedin_post.py:11-12 | there is exactly one skill line per skill, and line `i` is skill `i` followed by `" \n"` |
| `LinkedinPost.PostDecomposition` | src/utils/linkedin_post.py:2-18 | the post is the header, then `"Skills Required: \n"`, then the skill lines, then the apply segment, then the hashtag segment, in that order |
| `LinkedinPost.EmptySkillsKeepsHeading` | src/utils/linkedin_post.py:10-13 | with no skills the skills heading is still emitted and is followed at once by the apply and hashtag segments |
| `LinkedinPost.SkillBlockAt` | src/utils/linkedin_post.py:11-12 | within the skill block, skill `i` appears exactly as given, followed by `" \n"`, right after the lines of the skills before it |
| `LinkedinPost.PostSkillAt` | src/utils/linkedin_post.py:10-12 | in the post, skill `i` sits as given, followed by `" \n"`, after the header, the heading and the earlier skill lines |
| `LinkedinPost.SkillLineCount` | src/utils/linkedin_post.py:11-12 | when no skill contains a line break, the skill block holds exactly one line break per skill |
| `LinkedinPost.ConcatAppend` | src/utils/linkedin_post.py:10-13 | appending two runs of segments to the post appends the first run's text, then the second's |
| `LinkedinPost.LinkSlot` | src/utils/linkedin_post.py:13-15 | the link is put in once, at one offset that does not depend on the link, after every skill line: the post is the post for an empty link with the link spliced in there |
| `LinkedinPost.EndsWithHashtagLine` | src/utils/linkedin_post.py:17-18 | the post ends with `"#Hiring #CareerOpportunity #JoinUs "`, the record's hashtag, then `" 🚀\n"` and the indentation |
| `LinkedinPost.FieldsInOrder` | src/utils/linkedin_post.py:2-18 | company, title, level text, skill block, link and hashtag all occur in the post exactly as given, at positions in that order and without overlap |
| `LinkedinPost.OmittedFieldsIgnored` | src/utils/linkedin_post.py:2-18 | two records that differ only in location, experience or reasons to join give the same post |
| `JobLinkTextExtraction.ExtractTextFromUrl` | src/utils/job_link_text_extraction.py:4-16 | `None` exactly for a request failure (the GET or `raise_for_status`); any other failure escapes with its error; a parsed page gives its paragraphs joined; no paragraphs gives `""`, not `None`; a single paragraph is returned unchanged |
| `JobLinkTextExtraction.JoinLength` | src/utils/job_link_text_extraction.py:11 | for one or more paragraphs, the joined length is the sum of the paragraph lengths plus one less than the number of paragraphs |
| `JobLinkTextExtraction.JoinEmptyIff` | src/utils/job_link_text_extraction.py:11 | the joined text is empty exactly when there is no paragraph or a single empty one |
| `JobLinkTextExtraction.ParagraphAt` | src/utils/job_link_text_extraction.py:11 | paragraph `i` appears unchanged after the earlier paragraphs and one separator each, and a single `"\n"` follows every paragraph but the last |
| `JobLinkTextExtraction.SplitLines` | src/utils/job_link_text_extraction.py:11 | splitting on `"\n"` always yields at least one piece |
| `JobLinkTextExtraction.JoinSplit` | src/utils/job_link_text_extraction.py:11 | joining the pieces of a split gives the text back |
| `JobLinkTextExtraction.SplitJoin` | src/utils/job_link_text_extraction.py:11 | for one or more paragraphs, none containing a line break, splitting the joined text gives the paragraphs back in document order |
| `Pipeline.HaltsExactly` | src/main.py:9-18 | the script stops with its failure message exactly for a request failure or an empty page text (no paragraph, or one empty paragraph), so a page without paragraphs stops it like a failed fetch |
| `Pipeline.PublishesFormattedRecord` | src/main.py:11-15 | the post is handed to the publisher exactly when non-empty text was extracted and the model stage gave a record; the post is the formatted record with the URL that was fetched |
| `Pipeline.CrashesExactly` | src/main.py:9-15 | an exception escapes the script exactly when the extractor fails with something other than a request failure, when the model call raises (client creation or generation, src/llm/gemini_client.py:41-51), when the model response is empty (`ValueError`) or unparsed (`None` reaching the formatter) for non-empty text, or when the publisher's request raises |
| `Pipeline.PostedExactly` | src/utils/linkedin_posting.py:37-42 | the post goes up exactly when it was handed to the publisher and the endpoint answered 201; any other status is only printed and the run ends delivered with that status, without an error |

## Left out

- The language-model call (client, prompt text, schema-constrained generation, src/llm/gemini_client.py:27-60) is a foreign service. `Run` takes its outcome as a function parameter: the call itself raising (creating the client or `generate_content`, lines 41-51, for a missing key or a failed request), an empty response (the `ValueError` of lines 56-57), a response whose `parsed` is `None`, or a record.
- The publisher's request (src/utils/linkedin_posting.py:25-37) is an HTTP POST built from environment credentials. `Run` takes its outcome as a function parameter: the request raises, or the endpoint answers with a status code. The payload and headers are not modelled.
- `requests.get`, `raise_for_status` and the HTML parser are libraries outside the model. Their result is the `FetchOutcome` datatype, whose paragraphs are the `get_text()` results in document order.
- Environment loading (`load_dotenv`, `os.getenv`), `input()` and every `print` are console or configuration I/O and are left out.
- `LinkedinPost.LinkSlot`: states that the post depends on the link only through one splice point. It does not count literal occurrences, because the other fields may themselves contain the link's text.
- `LinkedinPost.SkillLineCount`: counts line breaks only when no skill contains one. A skill with a line break in it spreads over several lines in the source as well.
- `JobLinkTextExtraction.SplitJoin`: holds only for paragraphs without line breaks. A paragraph that contains `"\n"` cannot be told apart from two paragraphs once joined. It also needs at least one paragraph: `[]` and `[""]` both join to `""`, so the two cannot be told apart, and splitting `""` gives `[""]`.
- A worked example with concrete field values is not stated as a literal string. `LinkedinPost.FieldsInOrder` states the same ordering for every record.
