# EthoScraper in Dafny

A model of the decision logic of EthoScraper, an "ethical" web scraper with a GDPR compliance wizard. The model covers four parts:

- **The per-page pipeline of `EthicalSpider`** (`Transform`, `Extraction`, `Protection`, `Output`, `Scraper`).
  - Field selectors of the form `"<css> | t1 | t2"` and the transformation language `strip`, `replace:`, `join`, `regex:`.
  - Shaping the final list into a scalar, a list or `None`.
  - The item dict with its placeholder fallback and fixed metadata keys.
  - Pseudonymisation (`SHA256[:N]` truncated digests, the `Stub` redaction) and dropping the columns the compliance file lists.
  - The page counter with its hard limit and the append-only list of items.
  - The output format chosen from the file extension, and the CSV header.
- **The setup wizard** (`CoreSetup`, `Answers`, `ComplianceFile`, and `LegacySetup` for the older `setup.py`).
  - URL scheme normalisation.
  - The DPIA screening: nine criteria, two hard triggers, or two flagged criteria.
  - The answer rules of the Legitimate Interest Assessment tests.
  - The nested update of the compliance YAML document along a dotted path.
  - Where the legacy wizard copies its templates.
- **The LLM analysis report helpers** (`Analysis`, `Assessment`).
  - Projecting the assessment out of the compliance document, with defaults.
  - Cutting the YAML or JSON out of the model's reply.
  - List and section formatting, and the risk and compliance badges.
- **Shared pieces** (`Wrappers`, `Strings`, `Yaml`, `Externals`).
  - Python string operations such as `strip`, `split`, `join`, `replace`, `find`, `rfind`, slicing and `int()`.
  - A YAML/JSON value type.
  - The foreign functions.

**How Python is represented.**

- Where Python raises, a function returns `None` (`Option`).
- Terminal input is the sequence of lines typed. Running out of lines is `EOFError`.
- The CSS engine, `re.sub`, SHA-256, `urlparse`, `str()` of floats and containers, and dict iteration order are uninterpreted functions in `Externals.Foreign`. The only facts assumed about them are the ones their types state; a digest, for example, is 64 characters long.
- Clocks (`datetime.now()`) are parameters.
- Loops that update state in the source are methods with loop invariants. Each is proved equal to a specification function, and the properties are proved about that function.
- `EthicalSpider`'s counter and item list are fields of the class `Scraper.Spider`.

## Model

| member | source | states |
|---|---|---|
| Transform.ParseTransformation | src/ethoscraper/core/scraper.py:290-308 | `strip` and `join` are recognised only when spelled exactly. `replace:` needs exactly two comma-separated arguments after its colon; each argument has its whitespace, then its quotes, trimmed. `regex:` takes the rest after its colon as the pattern. Every other name is left unchanged. |
| Transform.AfterReplaceColon | src/ethoscraper/core/scraper.py:296 | `split(':', 1)[1]` of a `replace:` name is the text after `replace:`. |
| Transform.AfterRegexColon | src/ethoscraper/core/scraper.py:305 | `split(':', 1)[1]` of a `regex:` name is the text after `regex:`. |
| Transform.StripAll | src/ethoscraper/core/scraper.py:292-293 | `strip` never lengthens the list. |
| Transform.RegexAll | src/ethoscraper/core/scraper.py:303-306 | `regex:` maps every entry, so the length is kept; it is `None` when the pattern is rejected. |
| Transform.Apply | src/ethoscraper/core/scraper.py:290-308 | Only `regex:` can raise. `strip` does not lengthen the list, `join` yields exactly one entry, `replace` and `regex` keep the length, and an unknown or malformed name returns the list unchanged. |
| Transform.StripSelects | src/ethoscraper/core/scraper.py:292-293 | `strip` keeps exactly the non-empty entries, in their original order, each one stripped. |
| Transform.JoinSplitsBack | src/ethoscraper/core/scraper.py:301-302 | `join` yields one entry, `[""]` for an empty list. Splitting that entry at spaces gives the original entries back when none of them contains a space. |
| Transform.ReplaceEntries | src/ethoscraper/core/scraper.py:294-300 | A well-formed `replace` keeps the length. Each entry becomes `Join(new, Split(entry, old))`, and replacing a text by itself changes nothing. |
| Transform.ParseSelector | src/ethoscraper/core/scraper.py:261-267 | Exactly `"response.url"` is the page-URL case. Otherwise the CSS selector and the transformation names, joined with `" | "`, give back the configured string. |
| Transform.QueryFor | src/ethoscraper/core/scraper.py:270-276 | The query always asks for `::text` or `::attr(`. A selector asking for neither gets `::text` appended, and any other selector is used as is. |
| Transform.ApplyAllAppend | src/ethoscraper/core/scraper.py:279-280 | The transformations run left to right: running `a + b` is running `a`, then `b` on its result. |
| Transform.Shape | src/ethoscraper/core/scraper.py:282-288 | No values give `None`, exactly one value gives that string itself, and two or more give a list of the same length. `Unshape` recovers the list in every case, so shaping loses nothing. |
| Transform.ExtractWithSelector | src/ethoscraper/core/scraper.py:257-288 | The loop that reassigns `values` once per transformation computes `SelectorValue`. `"response.url"` returns the page URL untouched. |
| Extraction.FieldValue | src/ethoscraper/core/scraper.py:236-244 | A configuration that is not a string (a dict included) gives `None`, and `"response.url"` gives the page URL. |
| Extraction.ConfiguredItem | src/ethoscraper/core/scraper.py:225-255 | The item's keys are the configured fields other than `placeholder_value` and `pseudonymise`, plus `scraped_at`, `source_url` and `response_time`. `response_time` defaults to 0. Non-string configurations give `None`, and a field whose extraction raised gets `placeholder_value`, or `'[ERROR]'` when that is absent. |
| Extraction.ExtractConfiguredData | src/ethoscraper/core/scraper.py:225-255 | The loop filling the item one field at a time computes `ConfiguredItem`. |
| Protection.Protected | src/ethoscraper/core/scraper.py:315-343 | A protected item's keys are the item's keys minus the dropped columns. |
| Protection.ApplyDataProtection | src/ethoscraper/core/scraper.py:315-343 | The in-place pass computes `Protected`. |
| Protection.PseudonymiseFields | src/ethoscraper/core/scraper.py:321-332 | The loop raises exactly when some configured, present and truthy field has a method that raises. Otherwise it overwrites exactly those fields with their pseudonyms. |
| Protection.DropColumns | src/ethoscraper/core/scraper.py:335-341 | It fails exactly when reading the setting fails, and otherwise removes exactly the listed string columns. Missing columns are ignored, and without a compliance file nothing is removed. |
| Protection.DroppedColumnsGone | src/ethoscraper/core/scraper.py:335-341 | A dropped column is absent afterwards, even when it was pseudonymised first, and every other key survives. |
| Protection.UntouchedUnchanged | src/ethoscraper/core/scraper.py:322-341 | A field that is neither dropped nor pseudonymised keeps its value. |
| Protection.Pseudonym | src/ethoscraper/core/scraper.py:323-332 | A method that is not a string raises. A string method not starting with `SHA256` leaves the value as it is, except `Stub`, which gives `'[REDACTED]'`. A `SHA256` method gives a prefix of at most 64 characters of the value's digest, and it can raise only when it carries a `:`. |
| Protection.HashPrefix | src/ethoscraper/core/scraper.py:324-329 | `SHA256:N` gives the first min(N, 64) characters of the hex digest of the value's text. |
| Protection.WholeHashOrRedacted | src/ethoscraper/core/scraper.py:324-332 | Plain `SHA256` gives the whole 64-character digest, `Stub` gives `'[REDACTED]'`, and any other method text leaves the value as it is. |
| Output.PathParts | src/ethoscraper/core/scraper.py:365 | The components of a path are never empty and never `.`. |
| Output.PathName | src/ethoscraper/core/scraper.py:365 | The name of a path is never `.`. |
| Output.Suffix | src/ethoscraper/core/scraper.py:371 | The suffix is empty or a proper tail of the name: it starts with its only dot and is at least two characters long. |
| Output.FormatFor | src/ethoscraper/core/scraper.py:371-379 | The lower-cased extension `.csv` selects CSV, `.yaml` or `.yml` selects YAML, and anything else selects JSON. |
| Output.Insert | src/ethoscraper/core/scraper.py:392-394 | Adding a key keeps the header sorted and adds exactly that key. |
| Output.CsvHeader | src/ethoscraper/core/scraper.py:391-397 | The header is strictly sorted, hence free of duplicates, and holds exactly the union of every item's keys. |
| Output.SortedUnique | src/ethoscraper/core/scraper.py:397 | Two sorted lists with the same elements are equal, so the header is the one `sorted()` gives. |
| Output.StrLessIrreflexive | src/ethoscraper/core/scraper.py:397 | Python's string order is irreflexive. |
| Output.StrLessTransitive | src/ethoscraper/core/scraper.py:397 | Python's string order is transitive. |
| Output.StrLessTotal | src/ethoscraper/core/scraper.py:397 | Python's string order is total. |
| Scraper.HostOf | src/ethoscraper/core/scraper.py:118 | A URL `urlparse` accepts has a host: the reported `netloc` text for a string, `b''` for a falsy non-string. |
| Scraper.Netlocs | src/ethoscraper/core/scraper.py:117-119 | There is one host per start URL, in order. A string URL gives the text `urlparse` reports as its `netloc`, and a falsy non-string (`None`, `0`, `False`, `[]`, `{}`) gives the empty bytes `b''`, which differ from every text host. |
| Scraper.DedupeDomains | src/ethoscraper/core/scraper.py:114-121 | It raises exactly when `urlparse` rejects a start URL: a truthy non-string, which it cannot decode, or a string it cannot split, such as `http://[::1`. Otherwise the allowed domains hold every host once, in first-seen order. |
| Scraper.AppendKeepsOrder | src/ethoscraper/core/scraper.py:117-120 | Appending a host that is not yet listed, or skipping one that is, keeps the first-seen order. |
| Scraper.SetupSpider | src/ethoscraper/core/scraper.py:105-143 | It gives `None` for an empty or non-dict configuration and for a start URL that `urlparse` rejects (a truthy non-string, or a string it cannot split); a falsy one gives the host `b''`. `start_urls`, `job_name`, `extract_fields` and `output` default to `[]`, `'ethoscraper_job'`, `{}` and `{}`. Allowed domains are set exactly when there are start URLs. |
| Scraper.Spider.constructor | src/ethoscraper/core/scraper.py:48-66 | The spider starts with no pages counted and no items. |
| Scraper.Spider.ParseItem | src/ethoscraper/core/scraper.py:202-223 | At the limit it refuses without changing the counter or the list. Otherwise it counts exactly one page and appends exactly the protected item, or nothing if extraction or protection raised. `Valid` is kept. |
| Scraper.Spider.SaveTarget | src/ethoscraper/core/scraper.py:357-379 | Nothing is written exactly when no items are stored. With items and an `output` setting that is not a dict, saving raises. With a dict, it writes exactly when the configured or default file is a string, to that file, in the format its extension picks. |
| Scraper.Spider.CsvFieldnames | src/ethoscraper/core/scraper.py:386-397 | The header is sorted and holds exactly the keys of the stored items. |
| Scraper.PageBound | src/ethoscraper/core/scraper.py:204-210 | A spider never counts more pages than `max_pages` and never stores more items than it counted. |
| CoreSetup.NormalizeUrl | src/ethoscraper/core/setup.py:27-31 | The result always contains `://`. A URL that has it is unchanged, and any other URL gets `scheme://` prefixed. The older wizard (`src/ethoscraper/setup.py:27-31`) uses the same rule. |
| CoreSetup.NormalizeUrlIdempotent | src/ethoscraper/core/setup.py:27-31 | Normalising twice equals normalising once, whatever the second scheme. |
| CoreSetup.NeedsDpia | src/ethoscraper/core/setup.py:315-320 | A DPIA is needed iff `automated_decisions` or `systematic_monitoring` is flagged, or at least two criteria are. The older wizard (`src/ethoscraper/setup.py:253-258`) uses the same rule. |
| CoreSetup.FlaggedMembers | src/ethoscraper/core/setup.py:302-312 | A criterion is flagged iff its reply, stripped and lower-cased, is `y` or `yes`. |
| CoreSetup.FlaggedInOrder | src/ethoscraper/core/setup.py:302-312 | The flagged criteria appear in the criteria's own order. |
| CoreSetup.FlaggedAt | src/ethoscraper/core/setup.py:302-312 | With distinct criteria, the criterion at position i is flagged iff reply i is a yes. |
| CoreSetup.FlaggedDistinct | src/ethoscraper/core/setup.py:302-312 | No criterion is flagged twice. |
| CoreSetup.CriteriaDistinct | src/ethoscraper/core/setup.py:255-265 | The nine criteria keys are distinct. |
| CoreSetup.DpiaRule | src/ethoscraper/core/setup.py:302-320 | A DPIA is needed iff reply 2 or 3 is a yes, or at least two replies are. |
| CoreSetup.ScreenCriteria | src/ethoscraper/core/setup.py:302-320 | The append loop computes the flagged list, and the rule decides on it. |
| CoreSetup.DpiaScreening | src/ethoscraper/core/setup.py:237-329 | `n` at the ready prompt gives `(False, [])`. Otherwise the nine replies decide, as stated above. Input that ends before the closing prompt gives `None`. |
| CoreSetup.Repeat | src/ethoscraper/core/setup.py:410-422 | It gives n copies of one kind of question. |
| CoreSetup.CollectedEntries | src/ethoscraper/core/setup.py:421 | With distinct keys, `collected_answers` holds every answer under its own key and nothing else. |
| CoreSetup.RunTest | src/ethoscraper/core/setup.py:334-428 | The run of a test (its prompts, its questions, the write) computes `Run`. |
| CoreSetup.RunRecorded | src/ethoscraper/core/setup.py:410-424 | A completed test has one answer per key, each accepted by its question. Its section holds its previous entries updated with every answer under its key. |
| CoreSetup.DottedPath | src/ethoscraper/core/setup.py:204 | `a.b` splits into `[a, b]` when neither name contains a dot. |
| CoreSetup.SectionPath | src/ethoscraper/core/setup.py:424 | Each test's dotted section path names two levels: `legitimate_interest_assessment`, then the test's own section. |
| CoreSetup.NoDot | src/ethoscraper/core/setup.py:424 | The section names contain no dot. |
| CoreSetup.PurposeRecorded | src/ethoscraper/core/setup.py:410-424 | The purpose test records seven answers. Each is stripped and at least ten characters long, and each is merged into `legitimate_interest_assessment.purpose_test`. |
| CoreSetup.NecessityRecorded | src/ethoscraper/core/setup.py:484-494 | The necessity test records its four answers as typed, merged into `legitimate_interest_assessment.necessity_test`. |
| CoreSetup.BalanceRecorded | src/ethoscraper/core/setup.py:588-691 | The balancing test records five nature answers (yes becomes a detail, no becomes `"No"`) and six detailed expectation answers, merged into `legitimate_interest_assessment.balancing_test`. |
| CoreSetup.BalanceNatureAnswers | src/ethoscraper/core/setup.py:588-604 | Each of the five nature answers, against the reply typed at its own line: a yes gives a detailed description (stripped, at least ten characters), a no gives `"No"`, and any other reply is recorded as typed. |
| Answers.FirstDetailed | src/ethoscraper/core/setup.py:416-419 | It finds the first line whose stripped form has at least ten characters; every earlier line is shorter. `None` means every remaining line is too short. |
| Answers.DetailedAnswer | src/ethoscraper/core/setup.py:416-419 | A detailed answer consumes at least one line. |
| Answers.Ask | src/ethoscraper/core/setup.py:590-604 | Every answer consumes at least one line and never reads past the input. |
| Answers.DetailedAccepted | src/ethoscraper/core/setup.py:416-419 | A detailed answer is stripped and at least ten characters long. |
| Answers.NatureReply | src/ethoscraper/core/setup.py:593-604 | `Y`/`Yes`/`y`/`yes` is replaced by a detailed answer, and `N`/`No`/`n`/`no` becomes `"No"`. Any other reply is kept verbatim. |
| Answers.LegacyNatureReply | src/ethoscraper/setup.py:424-434 | A yes is replaced by the next line exactly when the question has a follow-up, using two lines; any other reply is kept as typed, using one line. Input ends too early exactly when there is no line for the question, or none for the follow-up it asks. |
| Answers.AskAll | src/ethoscraper/core/setup.py:410-422 | There is one answer per question, and the lines consumed stay within the input. |
| Answers.AskAllAt | src/ethoscraper/core/setup.py:410-422 | Answer i of a completed run is the answer question i gets at the line where the answers before it stopped, and the run over the first i + 1 questions ends where that answer does. |
| Answers.AskAllAccepted | src/ethoscraper/core/setup.py:410-422 | Every answer of a completed run is accepted by its question. |
| Answers.AskDetailed | src/ethoscraper/core/setup.py:416-419 | The re-asking `while` loop computes `DetailedAnswer`. |
| Answers.AskOne | src/ethoscraper/core/setup.py:590-604 | The one-question step computes `Ask`. |
| Answers.AskEach | src/ethoscraper/core/setup.py:410-422 | The question loop computes `AskAll`. |
| ComplianceFile.PlugStep | src/ethoscraper/core/setup.py:207-210 | Putting a section back under one more parent dict is one more step of the walk. |
| ComplianceFile.WriteSection | src/ethoscraper/core/setup.py:187-224 | The navigation loop over `path_parts` computes `WriteCompliance`. |
| ComplianceFile.WrittenSection | src/ethoscraper/core/setup.py:207-224 | After a write, the section at the path holds its previous entries updated with `data`; a missing section counts as `{}`. |
| ComplianceFile.OtherSectionsUnchanged | src/ethoscraper/core/setup.py:207-224 | Every path that leaves the written path leads to what it led to before. |
| ComplianceFile.FreshPathWritable | src/ethoscraper/core/setup.py:208-215 | Missing sections are created, so a write through a fresh `{}` always succeeds. |
| ComplianceFile.WritableSucceeds | src/ethoscraper/core/setup.py:207-224 | The write succeeds when every existing section on the path is a dict. |
| ComplianceFile.NonDictBlocks | src/ethoscraper/core/setup.py:207-224 | A non-dict parent section, or a non-dict target when there is something to write, makes the write raise. |
| LegacySetup.DpiaScreening | src/ethoscraper/setup.py:181-260 | There is no ready prompt: the first nine lines decide by the same rule, and fewer lines give `None`. |
| LegacySetup.Balance | src/ethoscraper/setup.py:372-514 | The balancing test returns 5 nature answers followed by 10 expectation answers, 15 in total; what each answer is, is stated by `BalanceAnswers`. |
| LegacySetup.BalanceTest | src/ethoscraper/setup.py:416-514 | The two append loops compute `Balance`. |
| LegacySetup.BalanceAnswers | src/ethoscraper/setup.py:416-514 | Starting at the first line, each of the 15 answers is its own line as typed. The exception is a yes to `criminal_data`, `private_data` or `vulnerable_data`, which is replaced by the line after it. `special_category` and `personal_or_professional` are always kept as typed. Each question reads on from where the previous one stopped, so the ten expectation answers are the ten lines after the nature answers, in order. |
| LegacySetup.TemplateRenamed | src/ethoscraper/setup.py:109-116 | `<stem>-template.yaml` is copied as `<stem>.yaml`. |
| LegacySetup.TemplateDestinations | src/ethoscraper/setup.py:109-116 | `compliance-template.yaml` goes to `output/compliance.yaml`, and `target-template.yaml` goes to `target.yaml` in the project folder. |
| Analysis.ExtractLiaData | src/ethoscraper/core/analysis.py:24-36 | It raises exactly when the document or one of the two sections read is not a dict. A missing test section gives `{}`, and a missing name or URL gives `'Unknown'`. `dpia_required` is `dpia_screening.required`, or False when either level is missing. The console version (`src/ethoscraper/modelAssement.py:25-37`) projects the same fields with the same defaults. |
| Analysis.ExtractLiaDataDefaults | src/ethoscraper/core/analysis.py:24-36 | An empty document gives every default. |
| Analysis.FencedYamlBetween | src/ethoscraper/core/analysis.py:175-177 | With the opener and a later closing fence, the cut text is exactly what lies between the first opener and the last fence. |
| Analysis.FencedYamlUnfencedCut | src/ethoscraper/core/analysis.py:175-177 | A reply without backticks loses its first seven characters and its last one. |
| Analysis.FencedYamlUnfenced | src/ethoscraper/core/analysis.py:175-177 | `confidence_rating: 85` is cut to `nce_rating: 8`. |
| Analysis.CutAgrees | src/ethoscraper/core/analysis.py:175-177 | Wherever the written cut works (an opener, then a closing mark after it), the corrected cut gives the same text. |
| Analysis.FencedYamlCorrected | src/ethoscraper/core/analysis.py:175-177 | The corrected YAML cut keeps a reply without an opener whole. It agrees with the written cut when a fence follows the opener, and keeps everything after the opener when no fence follows it. |
| Analysis.FencedYamlCorrectedUnfenced | src/ethoscraper/core/analysis.py:175-177 | The corrected cut keeps `confidence_rating: 85` whole. |
| Analysis.PrefixedLines | src/ethoscraper/core/analysis.py:190 | There is one `prefix + str(item)` line per item, in order. |
| Analysis.FormatList | src/ethoscraper/core/analysis.py:187-190 | An empty list gives `prefix + "*No items reported*"`. A non-empty one fails exactly when it cannot be iterated. |
| Analysis.FormatListLines | src/ethoscraper/core/analysis.py:187-190 | Splitting the result at newlines gives one `prefix + item` line per item, in order, when no text holds a newline. |
| Analysis.FormatSectionAnalysis | src/ethoscraper/core/analysis.py:193-213 | Empty data gives the "No analysis data available" block. Truthy data fails exactly when it is not a dict or its strengths or weaknesses cannot be listed. |
| Analysis.SectionDefaults | src/ethoscraper/core/analysis.py:193-213 | A section without any of the four fields shows score `N/A`, no strengths, no weaknesses and no comments. |
| Analysis.Badge | src/ethoscraper/core/analysis.py:215-231 | It fails exactly on a non-dict analysis or an unhashable level. Otherwise a level the table knows gets its own badge from the table, and a missing or unknown level gets the fallback. |
| Analysis.RiskBadge | src/ethoscraper/core/analysis.py:215-222 | `LOW`, `MEDIUM` and `HIGH` get the green, yellow and red risk badges; a missing level gets the white UNKNOWN RISK badge; a non-dict analysis or an unhashable level raises. |
| Analysis.ComplianceBadge | src/ethoscraper/core/analysis.py:225-231 | `COMPLIANT`, `PARTIALLY_COMPLIANT` and `NON_COMPLIANT` get the check-mark, warning and cross badges; a missing status gets the UNKNOWN STATUS badge; a non-dict analysis or an unhashable status raises. |
| Analysis.BadgeIdentifiesLevel | src/ethoscraper/core/analysis.py:215-231 | With a badge table that tells its levels apart, two analyses get the same badge iff they report the same known level, or both report none. |
| Analysis.BadgesDistinguish | src/ethoscraper/core/analysis.py:217-231 | The risk and compliance tables have distinct badges, none of them equal to the fallback. |
| Analysis.RiskBadgeUnknown | src/ethoscraper/core/analysis.py:216-222 | The UNKNOWN RISK badge appears exactly when the level is missing or is not `LOW`, `MEDIUM` or `HIGH`. |
| Analysis.ComplianceBadgeUnknown | src/ethoscraper/core/analysis.py:225-231 | The UNKNOWN STATUS badge appears exactly when the status is missing or is not one of the three known ones. |
| Assessment.FirstMark | src/ethoscraper/modelAssement.py:73 | `find` of a one-character mark gives its first occurrence. |
| Assessment.LastMark | src/ethoscraper/modelAssement.py:74 | `rfind` of a one-character mark gives its last occurrence. |
| Assessment.JsonSliceBraces | src/ethoscraper/modelAssement.py:72-76 | With a `{` and a later `}`, the parsed text runs from the first `{` through the last `}` inclusive, so it starts with `{` and ends with `}`. |
| Assessment.Bullets | src/ethoscraper/modelAssement.py:90-93 | A missing key gives an empty block. It fails exactly when the analysis is not a dict or the entry cannot be iterated. |
| Assessment.BulletLines | src/ethoscraper/modelAssement.py:90-93 | There is one bullet line per entry, in order, when no entry holds a newline. |
| Strings.StripTrims | src/ethoscraper/core/setup.py:416 | `strip()` removes exactly the leading and trailing whitespace. |
| Strings.StripIdempotent | src/ethoscraper/core/setup.py:416-419 | Stripping twice equals stripping once. |
| Strings.JoinSplit | src/ethoscraper/core/scraper.py:265 | Joining the pieces of a split with the same separator gives back the text. |
| Strings.SplitJoin | src/ethoscraper/core/scraper.py:302 | Splitting a join gives back the pieces when none contains the separator. |
| Strings.ReplaceIsJoinSplit | src/ethoscraper/core/scraper.py:300 | `replace(old, new)` is joining with `new` the pieces split at `old`. |
| Strings.Find | src/ethoscraper/core/analysis.py:175 | `find` gives the first occurrence, or -1 when there is none. |
| Strings.RFind | src/ethoscraper/core/analysis.py:176 | `rfind` gives the last occurrence, or -1 when there is none. |
| Strings.ParseIntRoundTrip | src/ethoscraper/core/scraper.py:328 | `int(str(n))` is n for every natural number n. |

## Left out

- Prompting and display: `print`, `time.sleep`, the example blocks and the question texts. The "Press Enter" prompts are modelled only as lines of input consumed.
- `get_user_inputs`, `confirm_proceed`, `run_lia_wizard`, `run_wizard_for_existing_project` and `main`: wizard sequencing and prompting only.
- The older wizard's `purpose_test` and `necessity_test`: they only prompt and return the replies as typed.
- File I/O. This covers loading and dumping YAML and JSON, the early return when the compliance file is missing and the caught read/write errors in `_write_to_compliance_yaml`, and the CSV/JSON/YAML writers. It also covers `mkdir`, `shutil.copy`, the template text customisation, `create_project_structure` and report saving. The model works on the loaded document and returns the document to be written.
- Configuration loading in `_load_target_config` and `_load_compliance_config`, and logging.
- The network: robots.txt checks, `fetch_and_display_robots` and the OpenAI calls. The model's reply is a parameter, and YAML/JSON parsing of it is not modelled.
- Scrapy machinery: `Rule`/`LinkExtractor`, `start_requests`, scheduling and concurrency, and `run_ethical_scraper`.
- `datetime.now()`: the `scraped_at` timestamp and the default output file name are parameters.
- `create_analysis_prompt`, and the report assembly beyond the named helpers (`generate_markdown_report`, `generate_report`). The fixed report text is not modelled.
- ComplianceFile.WriteSection: the source updates the loaded dicts in place through aliases. The model rebuilds the document as a value, so sharing between sections is not captured.
- Dict insertion order is not part of a Dafny `map`. Iterating a dict uses `Foreign.keyOrder`, and the order of keys in the written YAML is not modelled.
- `Strings.Lower`: only ASCII letters are lower-cased, whereas Python lower-cases all of Unicode.
- `Strings.ParseInt`: `int()`'s underscores and non-ASCII digits are not accepted.
- YAML values other than null, booleans, integers, floats, strings, lists and string-keyed dicts. The text of floats and containers (`str()`) is the foreign `show`.
- Answers.FirstDetailed: the `None` case is stated in one direction (no remaining line is long enough). The other direction follows from the `Some` case.
- src/ethoscraper/cli.py is not part of this model.

## Findings

| source | as written | input that shows it | evidently intended | confidence | as-written member | corrected member |
|---|---|---|---|---|---|---|
| src/ethoscraper/core/analysis.py:175-177 | `content[content.find('```yaml\n') + 8 : content.rfind('```')]`: without the opener `find` returns -1, so the cut starts at index 7, and without a fence it ends one character before the end. | A reply of bare YAML, `confidence_rating: 85`, is cut to `nce_rating: 8`. | With no opener, the whole reply is parsed. Otherwise the text from the opener to the last fence is parsed, or to the end when there is no fence. | not executed | Analysis.FencedYamlUnfenced | Analysis.FencedYamlCorrected |
