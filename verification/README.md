# auto-update-mmdb: CN network extraction and nftables set generation

This project is a Dafny model of the core of auto-update-mmdb. The program downloads the
latest GeoLite2 country database, collects every network the database attributes to
China (ISO code `CN`), and writes them as two nftables sets: `cn4` of type `ipv4_addr`
and `cn6` of type `ipv6_addr`. The model covers three pure pieces of `main.go`.

- **Asset selection** (`assets.dfy`, module `Assets`). This picks the download URL of
  the first release asset whose file name has the extension `.mmdb`. The extension
  follows `filepath.Ext` with `/` as the separator.
- **Extraction** (`extraction.dfy`, module `Extraction`). This is one pass over the
  database iteration.
  - An entry whose record fails to decode is skipped.
  - So is an entry whose ISO code is not exactly `"CN"`, and an entry whose network
    text does not re-parse.
  - Every other network is appended to the IPv4 list when its re-parsed address has a
    4-byte form, and to the IPv6 list otherwise.
- **Set-file text** (`setfile.dfy`, module `SetFile`; `pipeline.dfy`, module
  `Pipeline`). `Render` builds the exact text `writeSetFile` writes. `ParseSet` reads
  that text back, and the two are proved inverse in both directions. `SetFiles` yields
  the two generated files of one run.

Supporting modules:
- `Results` holds `Option` and `Result`.
- `Network` holds the byte-level address model and Go's `IP.To4`.
- `Lines` holds line splitting and joining, and affix stripping.

The database iteration is a plain sequence of `Entry` values:
- `Undecodable` stands for an entry whose decode failed.
- `Record(network, isoCode)` stands for an entry that decoded.

A network is its address bytes and prefix length. Go's CIDR text syntax is a parameter
of the model, not a definition: `CidrSyntax.format` stands for `IPNet.String` and
`CidrSyntax.parse` for the network result of `net.ParseCIDR`. Properties that need
something from that syntax ask for it by name:
- `SingleLine`: no rendered text contains a line break.
- `SeparatesFamilies`: re-parsed IPv4 and IPv6 networks never render to the same text.
- `StableReparse`: re-parsing an already re-parsed network gives it back.

All operations are pure functions, so running them twice on the same database gives
the same files.

Two behaviours of the code are easy to miss, and the model keeps both:
- The code does not deduplicate or sort networks. Each list keeps iteration order, and
  a repeated network would appear repeatedly.
- Asset selection also fails when the first `.mmdb` asset has an empty download URL.
  It fails even if a later `.mmdb` asset has a URL, because the loop stops at the
  first match and then tests the URL for emptiness.

## Model

| member | source | states |
|---|---|---|
| Network.To4 | main.go:149 | An address has a 4-byte form exactly when it is 4 bytes long, or 16 bytes long starting with the `::ffff:` prefix; that form is the address's last four bytes |
| Extraction.Classify | main.go:137-153 | An entry contributes exactly when it decoded, its ISO code equals `"CN"` (case-sensitive) and its network's text re-parses; it then contributes the re-parsed network's text, filed as IPv4 exactly when that network has a 4-byte form |
| Extraction.Extract | main.go:131-155 | The two lists together never hold more texts than there are entries |
| Extraction.ExtractIsPartition | main.go:131-155 | The loop equals a filter-map over the entries followed by a partition by family: each list is the texts of the contributing entries of its family, in iteration order |
| Extraction.ExtractConcat | main.go:136-153 | Encounter order is preserved: over a split iteration, each list is the first part's list followed by the second part's, with nothing sorted or merged |
| Extraction.SkippedEntry | main.go:138-147 | An undecodable entry, another country's entry, or one whose network does not re-parse is skipped, and extraction over the rest is unchanged |
| Extraction.ExtractMembership | main.go:143-153 | A text is in a family's list exactly when some entry contributes that text to that family |
| Extraction.ExtractCount | main.go:149-153 | Every contributing entry lands in exactly one list: the two lengths add up to the number of entries that decoded, are `"CN"` and re-parse |
| Extraction.ListsDisjoint | main.go:149-153 | No text is in both lists, given that the CIDR syntax renders the two families differently |
| Extraction.ListsParseInTheirFamily | main.go:144-153 | Every IPv4-list text parses as a network with a 4-byte form and every IPv6-list text as one without, given stable re-parsing |
| Extraction.ThreeEntryScenario | main.go:131-155 | Entries 10.0.0.0/8 CN, 192.168.0.0/16 US and 2001:db8::/32 CN give one IPv4 text (the first) and one IPv6 text (the third) |
| SetFile.Render | main.go:184-193 | The text always starts with the header naming the set and its type and always ends with the closing `    }` and `}` lines |
| SetFile.RenderTerminated | main.go:184-193 | The text is the set file's lines, each ended by a line break: four header lines, one line per element, two footer lines |
| SetFile.RenderEmpty | main.go:184-193 | An empty element list gives exactly `set N {\n    type T\n    flags interval\n    elements = {\n    }\n}\n` |
| SetFile.RenderLines | main.go:184-193 | With line-break-free inputs, the text splits into the header lines, then `        item,` for each element in order with nothing else between, then the footer lines |
| SetFile.ParseRender | main.go:176-194 | Parsing the rendered text gives back the set name, the type and the elements in order |
| SetFile.ParsedIsRendered | main.go:184-193 | Every text that parses as a set file is the rendering of what it parses to, so the grammar admits no other layout |
| Assets.ExtIsExt | main.go:72 | The extension is the suffix from the last `.` of the last `/`-separated element, or empty when that element has no `.` |
| Assets.ExtFromIsExt | main.go:72 | The backward scan, stopping at a separator, finds that suffix from any start whose later positions hold neither `.` nor `/` |
| Assets.MmdbIffSuffix | main.go:72 | A name has the extension `.mmdb` exactly when it ends with `.mmdb` |
| Assets.FirstMmdb | main.go:71-76 | The position found holds a `.mmdb` asset and no earlier asset is one; none is found only when no asset is one |
| Assets.SelectDownloadUrl | main.go:70-80 | Selection succeeds exactly when a `.mmdb` asset exists and the first one has a non-empty URL, and then it returns that URL; otherwise it fails with "no mmdb file found in release" |
| Assets.FirstMatchWins | main.go:71-76 | Assets listed after the first `.mmdb` asset never change the choice |
| Assets.FirstMatchAfterOthers | main.go:71-76 | A `.mmdb` asset preceded only by other assets is the one chosen, wherever it sits |
| Pipeline.SetFiles | main.go:158-159 | One run produces exactly two files, the IPv4 set at `/etc/nftables.d/cn4.nft` first and the IPv6 set at `/etc/nftables.d/cn6.nft` second |
| Pipeline.ListsSingleLine | main.go:150-152 | With single-line CIDR texts, no element of either list contains a line break |
| Pipeline.SetFilesParse | main.go:158-159 | The first file reads back as set `cn4` of type `ipv4_addr` holding the IPv4 list, and the second as set `cn6` of type `ipv6_addr` holding the IPv6 list |

## Left out

- Fetching the release metadata, JSON decoding, the download, the status-200 check and `io.Copy` (main.go:51-112) are network I/O. Only the asset list they produce is modelled.
- Creating the temporary file, renaming it over the live database, and creating the output files (main.go:87-92, 114-119, 177-182) are file-system effects. Only the text written is modelled. `Fprintf` write errors are ignored by the code, and the model says nothing about them.
- Opening the MaxMind database and its `SkipAliasedNetworks` iteration (main.go:124-138) belong to a foreign library. Its output is taken as the given sequence of entries.
- Go's `IPNet.String` and `net.ParseCIDR` text forms are not modelled, IPv6 zero compression included. They are the parameter `CidrSyntax`, so no exact CIDR text is claimed.
- Extraction.ListsDisjoint: disjointness of the text lists holds only under `SeparatesFamilies`, which constrains only networks that re-parsing produces, because Go's formatting is not modelled. At the network level the families are disjoint unconditionally (`Classify`).
- Extraction.ListsParseInTheirFamily: holds only under `StableReparse`, for the same reason.
- Extraction.Extract: `entries` is what the iteration yielded before it stopped. The code never consults the iterator's error (main.go:135-155 calls only `Next` and `Network`), so an iteration that fails partway silently truncates both lists, and the files are still written and nftables restarted. The lemmas about the lists therefore cover the yielded entries, not necessarily every network of the database.
- Extraction.Extract: its own contract only bounds the lengths. What the lists hold is stated by `ExtractIsPartition`, `ExtractMembership` and `ExtractCount`.
- The `systemctl restart nftables` call, timestamped logging, and `os.Exit` (main.go:42-48, 165-171) are process control and wall-clock time.
- Assets.ExtIsExt: `filepath.Ext` is modelled with `/` as the only separator. Other platforms' separators are not modelled.
- SetFile.RenderLines and SetFile.ParseRender: both need inputs free of line breaks. The text is still produced otherwise, but its lines no longer match the inputs one to one.
