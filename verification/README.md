# wp-open-ai-posts: the post generator, modelled in Dafny

This WordPress plugin has one piece of real logic. It is the AJAX handler
`OpenAI_Plugin_Singleton::generate_post`, which runs these steps in order:

1. It checks the request's nonce.
2. It reads the stored OpenAI API key and the sanitized topic prompt.
3. It sends one chat-completion request to OpenAI.
4. It checks the HTTP status of the reply.
5. It cuts the completion text into a title and a body.
6. It publishes that title and body as a post for the current user.

Each failed check sends a JSON error and ends the request.

The model has three modules:

- `Wrappers` (`wrappers.dfy`) holds `Option`.
- `Extractor` (`extractor.dfy`) is the title/body extraction.
  - It works on the completion text as a `string`, one `char` per byte.
  - It keeps the semantics of PCRE's multiline mode, assuming PCRE's default newline convention (a line feed alone ends a line) and its default C-locale character tables for `\s`:
    - `^` holds at the start of the text or after a line feed. PCRE does not let `^` hold after a line feed that ends the text; the model does, but no match can start there, because "Title:" needs six more characters.
    - `.` is anything but a line feed.
    - Greedy `\s*` runs over line feeds.
  - It also keeps PHP's `trim` character set.
  - The title is one recursive scan for the first match, `FindTitle`, plus the captured group, `Capture`.
  - The line replacement is defined twice, and the two are proved equal:
    - as PCRE performs it, by a character scan (`ReplaceFrom`);
    - as line blanking (`StripTitleLines`), which walks the text one line at a time from a position (`StripFrom`).
  - `Lines` and `Unlines` split a text at line feeds and join it again; blanking the title lines of that list is the same as `StripTitleLines`.
- `Handler` (`handler.dfy`) is the decision chain.
  - `GeneratePost` is a function from the handler's inputs to an `Outcome`:
    - the JSON reply;
    - the chat request, if one was sent;
    - the post, if one was inserted.
  - The inputs are the nonce field, the stored key, the sanitized prompt, the user id and the transport result.
  - `BuildRequest` builds the outbound request. `RequestInputs` is its inverse.

## Model

| member | source | states |
|---|---|---|
| Extractor.TagAtIsSlice | includes/class-openai-plugin-singleton.php:221 | The position test used for matches holds exactly when the six characters there are the literal "Title:". |
| Extractor.FindTitle | includes/class-openai-plugin-singleton.php:221 | The multiline match search returns no offset exactly when no position at or after i is a line start followed by "Title:". Otherwise it returns the first such position. |
| Extractor.Title | includes/class-openai-plugin-singleton.php:221-224 | Without any title match, the title is "No title found". With one, the title is group 1 of the first match. |
| Extractor.Capture | includes/class-openai-plugin-singleton.php:221 | The group at a match is the text after "Title:" and the greedy run of `\s` (which may cross line feeds), up to the next line feed or the end. It contains no line feed and is not trimmed. |
| Extractor.GroupSpanUnique | includes/class-openai-plugin-singleton.php:221 | The group described declaratively (greedy `\s*`, then `.*` that ends at `$`) has exactly one solution, the captured one. So the pattern needs no backtracking. |
| Extractor.ReplaceIsLineBlanking | includes/class-openai-plugin-singleton.php:227 | Scanning and removing every `^Title:.*$` match gives the same text as blanking each line that begins with "Title:". The line structure is kept: every line feed stays, and every other line stays in place and in order. |
| Extractor.StripIsBlanking | includes/class-openai-plugin-singleton.php:227 | Blanking line by line gives the same text as splitting into lines, emptying each line that begins with "Title:", and joining with line feeds. |
| Extractor.NoTitleLineLeft | includes/class-openai-plugin-singleton.php:227 | After the replacement, no line of the text begins with "Title:". Every title line is removed, not just the first. |
| Extractor.TitleAtIffTitleLine | includes/class-openai-plugin-singleton.php:221-227 | A match position exists if and only if some line begins with "Title:". |
| Extractor.UnlinesLines | includes/class-openai-plugin-singleton.php:227 | Splitting a text at line feeds and joining the lines again gives the text back. |
| Extractor.LinesUnlines | includes/class-openai-plugin-singleton.php:227 | Joining lines that hold no line feed and splitting the result gives the lines back. |
| Extractor.Trim | includes/class-openai-plugin-singleton.php:228 | PHP `trim` leaves a result whose first and last characters are not among " \t\n\r\0\x0B". The result is a middle slice with only trim characters around it. |
| Extractor.TrimUnique | includes/class-openai-plugin-singleton.php:228 | Any split of a text into trim characters, a slice with non-trim ends, and trim characters determines `trim`'s result. |
| Extractor.TrimIdempotent | includes/class-openai-plugin-singleton.php:228 | Trimming twice is the same as trimming once. |
| Extractor.TrimAllSpace | includes/class-openai-plugin-singleton.php:228 | A text made only of trim characters trims to "". |
| Extractor.Body | includes/class-openai-plugin-singleton.php:227-228 | The stored body has no leading or trailing trim character. |
| Extractor.Extract | includes/class-openai-plugin-singleton.php:221-228 | Gives the title (placeholder or first group) and the trimmed, line-blanked body together. |
| Extractor.OnlyTitleLinesGiveEmptyBody | includes/class-openai-plugin-singleton.php:227-228 | A text whose every line is a title line or made only of trim characters gives the empty body. |
| Extractor.NoTitleLine | includes/class-openai-plugin-singleton.php:221-228 | A text with no title line gives the title "No title found", and its trimmed self as the body. |
| Extractor.ExtractRoundTrip | includes/class-openai-plugin-singleton.php:221-228 | A text of the form "Title: " + t + "\n" + b gives back exactly t and b. Here t is a one-line title that does not start with a blank, and b is a trimmed body with no title line. |
| Extractor.EveryTitleLineRemoved | includes/class-openai-plugin-singleton.php:221-228 | A second title line right after the first is removed too. The first gives the title. |
| Extractor.BareTitleLineBorrowsNext | includes/class-openai-plugin-singleton.php:221-228 | After a bare "Title:" line, `\s*` crosses the line feed. The next line becomes the title and also stays in the body. |
| Extractor.IndentedTagOpensBody | includes/class-openai-plugin-singleton.php:227-228 | An indented "Title:" line survives the replacement. Trimming can then leave it as the start of the body. |
| Extractor.TitleSkipsPlainLine | includes/class-openai-plugin-singleton.php:221 | A first line that does not begin with "Title:" has no effect on the title. |
| Extractor.ExampleTitleThenBody | includes/class-openai-plugin-singleton.php:221-228 | "Title: Hello World\nSome body text." gives the title "Hello World" and the body "Some body text.". |
| Extractor.ExampleTwoTitleLines | includes/class-openai-plugin-singleton.php:221-228 | "Title: A\nTitle: B\nBody here" gives the title "A" and the body "Body here". |
| Extractor.ExampleBareTitleLine | includes/class-openai-plugin-singleton.php:221-228 | "Title:\nNext line\nBody" gives the title "Next line" and the body "Next line\nBody". |
| Extractor.ExampleBodyOpensWithTag | includes/class-openai-plugin-singleton.php:227-228 | "Title: A\n  Title: B" gives the body "Title: B". |
| Extractor.ExampleUntrimmedTitle | includes/class-openai-plugin-singleton.php:221-224 | A trailing space and carriage return stay in the title. |
| Handler.BuildRequest | includes/class-openai-plugin-singleton.php:174-196 | The request goes to the chat-completions URL with these fields: model "gpt-3.5-turbo"; a system message "You are a helpful assistant."; a user message "Write an article for this topic: " followed by the prompt; max_tokens 500; an `Authorization` header "Bearer " followed by the key (section 2.1 of RFC 6750); content type "application/json"; timeout 30. |
| Handler.RequestInputs | includes/class-openai-plugin-singleton.php:176-196 | Reads the key and prompt back from a request that carries the handler's fixed fields. |
| Handler.RequestRoundTrip | includes/class-openai-plugin-singleton.php:176-196 | Reading back a built request gives its key and prompt. |
| Handler.RequestDeterminedByInputs | includes/class-openai-plugin-singleton.php:176-196 | A request with the handler's fixed fields is exactly the one built from the key and prompt read back from it. |
| Handler.GeneratePost | includes/class-openai-plugin-singleton.php:159-237 | A request is sent if and only if the nonce verifies, the key is truthy and the prompt is non-empty, and it is the built request. A post is inserted if and only if a request was sent and the reply has status 200. It holds the extracted title, the body, "publish" and the current user. The reply is a success if and only if a post was inserted. Each failed stage gets its own message. |
| Handler.NonceCheckedFirst | includes/class-openai-plugin-singleton.php:161-164 | A missing or rejected nonce gives "Nonce verification failed." with no request and no post, whatever the other inputs are. |
| Handler.ZeroIsMissing | includes/class-openai-plugin-singleton.php:166-172 | A key or prompt of "0" counts as missing, just like "": "API key or prompt is missing." is returned and no request is sent. |
| Handler.MessagesDistinct | includes/class-openai-plugin-singleton.php:159-237 | The five reply messages are pairwise different. |
| Handler.ReplyTellsHowFar | includes/class-openai-plugin-singleton.php:159-237 | Two calls with the same reply message agree on whether a request was sent and whether a post was inserted. |
| Handler.FormattedReplyPublished | includes/class-openai-plugin-singleton.php:198-237 | A 200 reply in the shape "Title: t\nbody" publishes the post (t, body, "publish", user), and the reply is success. |
| Handler.UntitledReplyPublished | includes/class-openai-plugin-singleton.php:198-237 | A 200 reply with no title line publishes "No title found" with the trimmed reply as the body. |
| Handler.ExampleHelloWorld | includes/class-openai-plugin-singleton.php:198-237 | A 200 reply of "Title: Hello World\nSome body text." publishes the post "Hello World" with the body "Some body text.". |

## Left out

- `wp_remote_post` and the HTTP round trip are not modelled. The model states the request the handler builds, and takes the transport result (an error, or a status and the completion text) as an input.
- The JSON encoding of the request body is not modelled. Its fields are kept as a datatype.
- `json_decode` and the `choices[0].message.content` lookup are not modelled. The completion text is an input.
  - The code has no error path for a malformed reply, so the model has none either.
- `error_log` calls are logging I/O and are left out.
- `wp_verify_nonce`, `get_option`, `sanitize_text_field` and `get_current_user_id` are WordPress calls. Their results are inputs:
  - the nonce field is missing, present and accepted, or present and rejected;
  - the key is `None` for the missing option;
  - the prompt is the sanitized string, which is "" when the field is missing;
  - the user is a `nat`.
- `wp_insert_post` and `wp_send_json_*` become the `inserted` and `reply` parts of the outcome. What WordPress then does with the post (its own sanitizing, its ids) is not part of this model.
- The end of the request after an error reply (`wp_die`) is modelled as early return.
- The status code is an `int`. The empty-string status that WordPress returns for a malformed response is not modelled. It would fail the `!== 200` test like any other non-200 status.
- The stored key is a string or missing. Non-string option values are not modelled.
- Hook wiring, the singleton instance, the settings page and option registration are not modelled. They are CMS plumbing.
- The browser script and the plugin bootstrap file are not modelled. They are UI and loading only.
- PHP strings are byte strings. Each `char` stands for one byte, and no encoding is modelled.
- The title is not trimmed: group 1 keeps any trailing spaces or carriage return (Extractor.ExampleUntrimmedTitle).
- Any truthy key counts as present, including " ": includes/class-openai-plugin-singleton.php:170 tests PHP truthiness only.
- Extractor.NoTitleLineLeft is stated on the text before trimming, because after trimming the body can begin with "Title:". That happens when an indented "Title:" line follows the removed lines (Extractor.IndentedTagOpensBody).
