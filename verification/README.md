# A model of the plain-text CV parser

This project models `parseCVText`, the function that turns the plain text of
an uploaded CV into a structured CV record, together with the record types
and the all-empty default record it starts from. The function is a fixed
pipeline, and the model follows it module by module:

- `Schema` — the records (`ContactInfo`, `Education`, `Experience`,
  `CVData`) and `InitialCVData`, the default record.
- `Text` — the string primitives the parser relies on: ECMAScript `trim`
  (the exact WhiteSpace and LineTerminator set), `split('\n')` and
  `join('\n')`, ASCII lower-casing, and string length in UTF-16 units.
- `Regex` — the email and phone regular expressions as a backtracking
  matcher over greedy character-class repetitions. It is proved sound and
  complete against a declarative language of each pattern. It returns the
  match `String.prototype.match` with the `g` flag reports first, pinned
  down at both ends: the leftmost start, the first alternative that matches
  there, and that alternative's run lengths, the greatest in lexicographic
  order (each repetition gives back characters only when the rest of the
  pattern fails).
- `Sections` — the ordered header table, the header test (lower-cased line
  equal to a header, or starting with the header and a colon), and the
  single pass that routes lines to the current section.
- `Lists` — the skills and languages splitters. Lines are split on `,`, `|`
  and `•` (skills also on runs of two or more whitespace characters); the
  pieces are trimmed, and pieces of at most one unit are dropped.
- `Accumulator` — the open-entry scan that the experience and education
  sections share. A start line flushes the open entry and opens a new one;
  other lines are absorbed into the open entry; the last entry is flushed
  at the end. Its main theorem cuts the section into blocks, one per start
  line.
- `ExperienceParser`, `EducationParser` — the two instances of the scan: the
  start-line tests, how an entry is opened, and how a following line is
  absorbed. Each also has a loop-free description of the entries, proved
  equal to what the scan computes.
- `Parser` — `ParseCVText`, which normalises the lines, extracts the
  contact details, segments the lines and interprets the sections.
- `Seqs` — generic sequence helpers: `Filter`, `Map`, `Concat`, `CountIf`
  and `Option`.

An experience entry's company is the first piece of `line.split(/[-–—|]/)`,
trimmed. A start line with no dash or bar gives the whole trimmed line
(`ExperienceParser.CompanyWithoutDash`).

## Model

| member | source | states |
|---|---|---|
| Schema.InitialCVData | lib/cv-schema.ts:44-59 | The default record has an empty name, email, phone and location, no links, an empty summary, and every list empty. |
| Schema.BlankIsInitial | lib/cv-schema.ts:44-59 | A record whose strings and lists are all empty is the default record, so blankness characterises it. |
| Text.IsSpace | lib/pdf-parser.ts:7 | The whitespace set that `trim` strips and that `\s` matches in the patterns at lines 12 and 63: tab, line feed, vertical tab, form feed, carriage return, space, no-break space, the Unicode space separators, the line and paragraph separators and the byte-order mark. |
| Text.Trim | lib/pdf-parser.ts:7 | A trimmed line is the slice of the line between a whitespace prefix and a whitespace suffix, and it neither begins nor ends with whitespace. |
| Text.TrimIdempotent | lib/pdf-parser.ts:7 | Trimming a trimmed line changes nothing. |
| Text.TrimAllSpace | lib/pdf-parser.ts:7 | A line made only of whitespace trims to the empty string, so the normalisation drops it. |
| Text.TrimKeepsCount | lib/pdf-parser.ts:7 | Trimming keeps every non-whitespace character, the same number of times. |
| Text.TrimStart | lib/pdf-parser.ts:97 | Removing leading whitespace leaves a suffix that does not start with whitespace, and everything removed is whitespace. |
| Text.TrimAll | lib/pdf-parser.ts:7 | Mapping `trim` over the lines keeps their number, and each result is the trim of the line at the same position. |
| Text.SplitOn | lib/pdf-parser.ts:7 | Splitting on a character yields at least one piece, and no piece contains that character. |
| Text.JoinSplit | lib/pdf-parser.ts:7-8 | Joining the pieces of `split('\n')` with line feeds gives the text back. |
| Text.SplitJoin | lib/pdf-parser.ts:7-8 | Splitting pieces that were joined with a line feed, none of which holds one, gives the pieces back. |
| Text.JoinCount | lib/pdf-parser.ts:8 | Joining with a separator adds only separator characters. |
| Text.Lower | lib/pdf-parser.ts:36 | Lower-casing keeps the length and maps each character on its own: ASCII upper-case letters go down by 32, all other characters stay. |
| Text.LowerIdempotent | lib/pdf-parser.ts:36 | Lower-casing twice is lower-casing once. |
| Text.Utf16Len | lib/pdf-parser.ts:54 | A string's JavaScript length is between its number of code points and twice that number. |
| Text.StartsWith | lib/pdf-parser.ts:40 | A string starts with a prefix when the prefix is no longer than it and equals its first characters. The bullet test at line 96 is the one-character case. |
| Text.Contains | lib/pdf-parser.ts:91 | `includes` tries the substring at every start position. |
| Text.ContainsAt | lib/pdf-parser.ts:91 | The substring test holds exactly when the substring occurs at some position. |
| Text.JoinOn | lib/pdf-parser.ts:8 | Joining puts the separator between consecutive parts only: none before the first part, none after the last. |
| Text.ContainsAnyIff | lib/pdf-parser.ts:110 | The keyword scan holds exactly when one of the keywords occurs somewhere in the string. |
| Regex.InClass | lib/pdf-parser.ts:11-12 | The character classes of the two patterns: the email local and domain sets, `@`, the dot, ASCII letters, `+`, decimal digits, the phone separator set `[-.\s]` and the two parentheses. |
| Regex.GreedyRun | lib/pdf-parser.ts:11-12 | A greedy repetition takes class characters within its upper bound, and stops only at the end of the text, at a character outside the class, or at the bound. |
| Regex.GreedyRunIsLongest | lib/pdf-parser.ts:11-12 | No admissible run of a repetition is longer than the greedy run. |
| Regex.RunsInLang | lib/pdf-parser.ts:11-12 | Run lengths that fit the repetitions one after another mark out a string the pattern matches. |
| Regex.InLangRuns | lib/pdf-parser.ts:11-12 | Every string the pattern matches is marked out by such run lengths. |
| Regex.MatchReps | lib/pdf-parser.ts:11-12 | The backtracking match at a position finds run lengths that fit the pattern, and they are the greatest of all that fit, in lexicographic order with the first repetition most significant. When it fails, no run lengths fit at that position. |
| Regex.TryCounts | lib/pdf-parser.ts:11-12 | Giving back one character of the first repetition at a time finds the greatest fitting run lengths whose first run is at most the starting length, and fails only when every fitting first run is longer. |
| Regex.MatchAt | lib/pdf-parser.ts:12 | The alternatives are tried in order: the choice is the first alternative that can match at the position, with its greatest run lengths. When it fails, no alternative can match there. |
| Regex.FirstMatchFrom | lib/pdf-parser.ts:14-15 | The match is found at the first position where any alternative matches, and nothing matches at an earlier position. |
| Regex.FirstMatchOrEmpty | lib/pdf-parser.ts:14-15 | The result is empty with no match anywhere, or it is the reported match: the leftmost start, the first alternative that matches there, and its greatest run lengths. |
| Regex.ReportedUnique | lib/pdf-parser.ts:14-15 | Two reported matches agree on the start, the alternative and every run, so the description above fixes both ends of the result. |
| Regex.EmptyIffNoMatch | lib/pdf-parser.ts:14-15 | For a pattern that never matches the empty string, the result is empty exactly when no substring of the text matches. |
| Regex.MatchCount | lib/pdf-parser.ts:14-15 | When every match holds at least n characters of a kind, a non-empty result implies the text holds at least n of them. |
| Regex.LangCount | lib/pdf-parser.ts:11-12 | A matched string holds at least as many characters of a class as the pattern's repetitions of that class demand. |
| Regex.EmailHasAt | lib/pdf-parser.ts:11 | Every string the email pattern matches contains an `@`. |
| Regex.PhoneHasTenDigits | lib/pdf-parser.ts:12 | Every string either phone alternative matches contains at least ten digits. |
| Sections.Headers | lib/pdf-parser.ts:23-30 | The header table: each section's headers, lower-case, in the source's order. |
| Sections.HeaderMatches | lib/pdf-parser.ts:40 | A lower-cased line matches a header when it equals the header or starts with the header followed by a colon. |
| Sections.OpensSection | lib/pdf-parser.ts:39-40 | A line opens a section when its lower-cased form matches some header of that section. |
| Sections.HeadersHaveNoColon | lib/pdf-parser.ts:23-30 | No header of the table contains a colon. |
| Sections.SameHeader | lib/pdf-parser.ts:40 | Two colon-free headers that both match one line are the same header. |
| Sections.HeaderListsDisjoint | lib/pdf-parser.ts:23-30 | No header appears in the lists of two different sections. |
| Sections.NoLineOpensTwoSections | lib/pdf-parser.ts:23-45 | No line is a header of two different sections, so the table order never has to break a tie. |
| Sections.FirstOpened | lib/pdf-parser.ts:39-45 | The section found is the first in the given order whose headers match the line; when none is found, no section in the order matches. |
| Sections.HeaderOf | lib/pdf-parser.ts:36-45 | A line's section matches the line and no earlier section of the table does; a line with no section matches no header of any section. |
| Sections.SegmentStep | lib/pdf-parser.ts:35-56 | A header switches the current section and records nothing. Another line is appended to the current section alone, or touches no section before the first header. A name that is already set is kept. |
| Sections.Segment | lib/pdf-parser.ts:35-56 | The segmentation pass applies the one-line step to each line in order, from the first. |
| Sections.Content | lib/pdf-parser.ts:49-51 | The lines recorded for a section, empty when none was routed to it. |
| Sections.StartState | lib/pdf-parser.ts:32-33 | The pass starts with no current section and no lines collected for any section. |
| Sections.SegmentAppend | lib/pdf-parser.ts:35-56 | Running the pass over two stretches of lines in turn is running it over their concatenation. |
| Sections.BlockGoesToCurrent | lib/pdf-parser.ts:49-51 | A stretch of non-header lines is appended, in order, to the current section and to no other; the current section and the name stay. |
| Sections.SectionRouting | lib/pdf-parser.ts:35-51 | After a header of section s and the non-header lines that follow it, those lines have been appended to s, s is current, and every other section is as it was before the header. |
| Sections.PreambleGoesNowhere | lib/pdf-parser.ts:49-55 | Lines before the first header go to no section. |
| Sections.HeadersNeverContent | lib/pdf-parser.ts:39-47 | No header line is ever recorded as content of any section. |
| Sections.ContentFromInput | lib/pdf-parser.ts:49-51 | Every line recorded for a section is one of the input lines. |
| Sections.NameKept | lib/pdf-parser.ts:54 | Once the name is set it is never overwritten by the pass. |
| Lists.Tokenize | lib/pdf-parser.ts:63 | Splitting a line yields pieces with no delimiter (and, for skills, no two adjacent whitespace characters), separated by genuine separators. Each whitespace separator is a whole run: no whitespace on either side, and no second whitespace separator right after it across an empty piece. Putting pieces and separators back together gives the line. |
| Lists.TokenizeUnique | lib/pdf-parser.ts:63 | Any split of a line that meets the conditions above is the one the splitter computes, so those conditions determine the pieces. |
| Lists.IsListDelimiter | lib/pdf-parser.ts:63 | The one-character delimiters of the split pattern: comma, vertical bar and bullet. |
| Lists.TokenizeClean | lib/pdf-parser.ts:63 | A line with nothing to split on is one piece, itself. |
| Lists.SplitAll | lib/pdf-parser.ts:63 | The pieces of all lines, line by line in order; every piece is free of delimiters (and, for skills, of whitespace runs). |
| Lists.IsKept | lib/pdf-parser.ts:65 | A trimmed piece is kept when its UTF-16 length exceeds one, as `s.length > 1` at lines 65 and 73. |
| Lists.ListItems | lib/pdf-parser.ts:61-74 | Every piece of every line is trimmed, and only trimmed pieces longer than one UTF-16 unit are kept, in order. |
| Lists.Skills | lib/pdf-parser.ts:61-66 | The skills are the list items of the section's lines, split on delimiters and on runs of two or more whitespace characters. |
| Lists.Languages | lib/pdf-parser.ts:69-74 | The languages are the list items of the section's lines, split on delimiters only. |
| Lists.ItemsWellFormed | lib/pdf-parser.ts:61-74 | Every skill or language is trimmed, longer than one unit, and free of delimiters; a skill also has no run of two or more whitespace characters. |
| Lists.ItemsAppend | lib/pdf-parser.ts:61-74 | The list of a concatenation of lines is the concatenation of the lists, so entries keep document order and duplicates are kept. |
| Lists.ItemsOfItems | lib/pdf-parser.ts:61-74 | Well-formed entries pass through the splitter unchanged. |
| Lists.ItemsIdempotent | lib/pdf-parser.ts:61-74 | Splitting the resulting list again gives the same list. |
| Accumulator.Run | lib/pdf-parser.ts:80-102 | The loop over a section's lines applies the one-line step to each line in order, from the initial scan state. The education loop at lines 109-123 is the same loop. |
| Accumulator.Entries | lib/pdf-parser.ts:80-103 | The entries of a section are the closed entries after the loop, followed by the entry still open at its end, if any. The education loop ends the same way at line 124. |
| Accumulator.Step | lib/pdf-parser.ts:84-101 | A start line adds its newly opened entry after all earlier ones; another line keeps the closed entries and whether an entry is open. |
| Accumulator.Starts | lib/pdf-parser.ts:84 | The start positions are increasing, each holds a start line, and every start line's position is among them. |
| Accumulator.StartsAreFilter | lib/pdf-parser.ts:84 | There are as many start positions as start lines, and the k-th position holds the k-th start line. |
| Accumulator.EntriesAreBlocks | lib/pdf-parser.ts:78-103 | The scan yields one entry per start line, in order; entry k is start line k opened and then filled with the lines up to the next start line or the end. |
| Accumulator.EntriesSnoc | lib/pdf-parser.ts:80-103 | One more line adds an entry if it is a start line, is absorbed into the last entry otherwise, and is dropped while no entry exists. |
| Accumulator.LeadingLinesIgnored | lib/pdf-parser.ts:95 | Lines before the first start line do not change the entries. |
| Accumulator.InsideBlockNoStart | lib/pdf-parser.ts:84-85 | No line strictly inside a block is a start line. |
| ExperienceParser.IsDateLike | lib/pdf-parser.ts:82 | A line passes the date test when, lower-cased, it contains one of the twelve month abbreviations, or it contains `20` followed by two digits. |
| ExperienceParser.IsExperienceStart | lib/pdf-parser.ts:84 | A line opens an experience entry when it passes the date test and is shorter than 100 UTF-16 units. |
| ExperienceParser.CompanyOf | lib/pdf-parser.ts:87 | The company is the first piece of the dash-or-bar split of the start line, trimmed. |
| ExperienceParser.IsCurrentLine | lib/pdf-parser.ts:91 | An entry is current when its start line, lower-cased, contains `present`. |
| ExperienceParser.IsBullet | lib/pdf-parser.ts:96 | A bullet line starts with `•`, `-` or `*`. |
| ExperienceParser.OpenExperience | lib/pdf-parser.ts:86-94 | A start line opens an entry with the line's company and current flag, an empty position, dates and location, and no highlights. |
| ExperienceParser.ParseExperience | lib/pdf-parser.ts:77-104 | The experience loop is the shared open-entry scan with the date-line start test, the opener and the absorber. |
| ExperienceParser.IsDash | lib/pdf-parser.ts:87 | The characters of the company split's class: hyphen-minus, en dash, em dash and vertical bar. |
| ExperienceParser.BeforeDash | lib/pdf-parser.ts:87 | The first piece of the dash split is a prefix of the line without a dash or bar, and it stops only at a dash or bar or at the end. |
| ExperienceParser.CompanyHasNoDash | lib/pdf-parser.ts:87 | The company contains no dash or bar and does not begin or end with whitespace. |
| ExperienceParser.CompanyWithoutDash | lib/pdf-parser.ts:87 | A start line without a dash or bar gives the whole trimmed line as the company. |
| ExperienceParser.StripBullet | lib/pdf-parser.ts:97 | A highlight is a suffix of its bullet line with the marker and the whitespace after it removed, and it does not start with whitespace. |
| ExperienceParser.AbsorbExperience | lib/pdf-parser.ts:95-101 | Absorbing a line never changes the company, the current flag, the dates or the location. |
| ExperienceParser.FillIsBuild | lib/pdf-parser.ts:95-101 | Absorbing an entry's lines one by one makes the position the first non-bullet line and the highlights the stripped bullet lines, in order. |
| ExperienceParser.ExperienceEntries | lib/pdf-parser.ts:77-104 | The experience loop computes one entry per date line, built from that line and the lines before the next date line. |
| ExperienceParser.ExperienceHeads | lib/pdf-parser.ts:84-94 | There are as many entries as date lines shorter than 100 units. Entry k takes its company and current flag from the k-th such line; its dates and location are empty. |
| ExperienceParser.LeadingExperienceLinesDropped | lib/pdf-parser.ts:95 | Lines before the first date line are dropped. |
| ExperienceParser.DateBeforeBullet | lib/pdf-parser.ts:84-96 | A line that passes the date test opens a new entry even when it starts with a bullet marker. |
| ExperienceParser.HasYearAt | lib/pdf-parser.ts:82 | A `20` followed by two digits anywhere in a line makes it pass the year test. |
| ExperienceParser.DateTestIgnoresCase | lib/pdf-parser.ts:82 | Lines that agree up to ASCII case agree on the date test. |
| ExperienceParser.TitleAndTwoBullets | lib/pdf-parser.ts:95-101 | An entry given a title line and then two bullet lines has that title as its position and the two stripped bullets as its highlights. |
| ExperienceParser.TwoJobs | lib/pdf-parser.ts:80-103 | A date line, a title, two bullets, another date line and a title give two entries, and both bullets go to the first. |
| EducationParser.IsEducationStart | lib/pdf-parser.ts:110 | A line opens an education entry when, lower-cased, it contains one of the eight keywords. |
| EducationParser.OpenEducation | lib/pdf-parser.ts:112-119 | A keyword line opens an entry whose institution is the whole line and whose other fields are empty. |
| EducationParser.ParseEducation | lib/pdf-parser.ts:107-125 | The education loop is the shared open-entry scan with the keyword start test, the opener and the absorber. |
| EducationParser.AbsorbEducation | lib/pdf-parser.ts:120-122 | Absorbing a line never changes the institution, field of study, dates or description. |
| EducationParser.FillIsBuild | lib/pdf-parser.ts:120-122 | Absorbing an entry's lines one by one makes the degree the first of them, and later lines are dropped. |
| EducationParser.EducationEntries | lib/pdf-parser.ts:107-125 | The education loop computes one entry per keyword line, built from that line and the lines before the next keyword line. |
| EducationParser.EducationHeads | lib/pdf-parser.ts:110-119 | There are as many entries as keyword lines. Entry k's institution is the k-th keyword line; its field of study, dates and description are empty. |
| EducationParser.DegreeFromBlock | lib/pdf-parser.ts:120-122 | A degree is empty or a line of its own entry's block that is not a keyword line. |
| EducationParser.LeadingEducationLinesDropped | lib/pdf-parser.ts:120 | Lines before the first keyword line are dropped. |
| EducationParser.EducationTestIgnoresCase | lib/pdf-parser.ts:110 | Lines that agree up to ASCII case agree on the keyword test. |
| Parser.FullText | lib/pdf-parser.ts:8 | The text the regexes search is the normalised lines joined with line feeds. |
| Parser.FirstLine | lib/pdf-parser.ts:18-20 | The name is the first line when there is one, and empty otherwise. |
| Parser.SegmentText | lib/pdf-parser.ts:32-56 | The segmentation pass runs over the normalised lines, starting with the name already set to the first line. |
| Parser.SectionLines | lib/pdf-parser.ts:32-56 | The lines of a section are the lines the pass routed to it. |
| Parser.NormalizeLines | lib/pdf-parser.ts:7 | Every normalised line is non-empty, trimmed and free of line feeds. |
| Parser.NormalizeStable | lib/pdf-parser.ts:7-8 | Normalising the joined lines gives the same lines back. |
| Parser.ParseNormalized | lib/pdf-parser.ts:3-8 | Parsing the joined normalised lines gives the same record as parsing the raw text. |
| Parser.NormalizeCount | lib/pdf-parser.ts:7-8 | The joined lines hold every non-whitespace character of the input, the same number of times. |
| Parser.ParseCVText | lib/pdf-parser.ts:3-128 | The summary, projects, certifications, location and links keep their default values for every input. |
| Parser.BlankInputGivesDefault | lib/pdf-parser.ts:4-20 | Empty or whitespace-only input yields exactly the default record. |
| Parser.NoLinesGiveDefault | lib/pdf-parser.ts:4-20 | Input with no non-blank line yields exactly the default record. |
| Parser.NameIsFirstLine | lib/pdf-parser.ts:18-54 | When there are lines, the name is the first one. The name is empty exactly when the input is blank, so the short-line fallback never changes it. |
| Parser.EmailIsReportedMatch | lib/pdf-parser.ts:11-14 | The email is the match the engine reports for the email pattern in the joined lines, both of its ends fixed as for `Regex.FirstMatchOrEmpty`. It is empty exactly when nothing there matches. |
| Parser.PhoneIsReportedMatch | lib/pdf-parser.ts:12-15 | The phone number is the match the engine reports for the phone pattern in the joined lines, both of its ends fixed as for `Regex.FirstMatchOrEmpty`. It is empty exactly when nothing there matches. |
| Parser.EmailNeedsAt | lib/pdf-parser.ts:11-14 | A non-empty email implies the input contains an `@`. |
| Parser.PhoneNeedsTenDigits | lib/pdf-parser.ts:12-15 | A non-empty phone number implies the input contains at least ten digits. |
| Parser.SkillsOfText | lib/pdf-parser.ts:61-66 | The skills are the list items of the skills section's lines, each well formed. |
| Parser.LanguagesOfText | lib/pdf-parser.ts:69-74 | The languages are the list items of the languages section's lines, split on delimiters but not on whitespace runs. |
| Parser.ExperienceOfText | lib/pdf-parser.ts:77-104 | The experience entries are the described entries of the experience section's lines, one per date line. |
| Parser.EducationOfText | lib/pdf-parser.ts:107-125 | The education entries are the described entries of the education section's lines, one per keyword line. |
| Parser.SectionLinesFromInput | lib/pdf-parser.ts:35-51 | Every line of a section is a normalised line of the input and never a header. |

## Left out

- PDF text extraction, the upload form, the wizard pages and the CV store are not part of this model. They do I/O or UI work around the parser, which receives only a string.
- Sections.HeaderOf: the header test lower-cases ASCII letters only. `toLowerCase` also maps some non-ASCII characters to ASCII (the Kelvin sign to `k`), so a header spelled with one is not recognised by the model. The case-insensitive regex tests at lines 82 and 110 fold no non-ASCII character into ASCII, so ASCII lower-casing is exact for them. It is exact for the `present` test of `ExperienceParser.IsCurrentLine` as well: the only non-ASCII characters `toLowerCase` maps to ASCII are the Kelvin sign (to `k`) and the capital I with dot above (to `i` and a combining dot), and neither `k` nor `i` occurs in `present`.
- A JavaScript string may hold a lone UTF-16 surrogate, which a Dafny `char` cannot represent. Such text is not modelled. No character class, whitespace test or `Utf16Len` result would change because of it.
- Regex.FirstMatchOrEmpty: only the first element of the global match array is modelled. The other matches are never read by the parser.
- ExperienceParser.TwoJobs: this shape of section is stated for arbitrary lines of the right kinds, not for a particular literal CV text.
- Sections.Content: the source creates a section's line list on the first line routed to it and skips sections without a list. The model reads an absent list as empty, which gives the same record because every section interpreter maps no lines to no entries (`Parser.EmptySectionsParse`).
