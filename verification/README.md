# Bootforge: a verified model

Bootforge is a PXE boot server. A machine asks the DHCP proxy for a boot file,
fetches it over TFTP, asks again once it runs iPXE, is sent to an HTTP URL that
names its MAC address, and gets an iPXE script generated from the menus and
clients of a directory of TOML files. This project models the logic in between
and proves what it keeps.

The parts, by file:

| file | what it holds |
|---|---|
| Text.dfy, Domain.dfy, Mac.dfy | Go's string helpers with their laws, the domain values and validators, MAC addresses as text |
| Rewriting.dfy, Substitution.dfy | the three substituters of `${name}` placeholders; the loop over a Go map visits its keys in any order |
| Script.dfy, Machine.dfy, MenuLayout.dfy, MenuRun.dfy | the printed script language with its parser, a one-command-at-a-time iPXE, where things are in a labelled menu script, and what it does |
| JumpTargets.dfy, ClosedScripts.dfy | that every jump of a menu script has its label, and that no run is lost |
| Generator.dfy, CleanScripts.dfy, BootMeaning.dfy, FirstWords.dfy, SpacedNames.dfy | the script generator writing into a builder, texts that stay on their lines, and the meaning of what it writes, also for names with spaces |
| BootURLs.dfy | the URLs in a script, what a machine loads by them, and which files the server answers them with |
| EventBus.dfy, BusSteps.dfy, BusRuns.dfy | the event bus as an object, its atomic steps, then every interleaving of publishers, subscribers, readers and cancellations |
| MergeRules.dfy, Loader.dfy, MergeOrder.dfy, SaveLoad.dfy, Paths.dfy | merging, writer and parser, relative and absolute paths |
| AbsentKeys.dfy | keys that a configuration file leaves out |
| Wizard.dfy, ValidEdits.dfy, Validity.dfy, Editing.dfy | the configuration wizard's edits, which of them keep what it saves valid, and that it saves what was entered |
| Directory.dfy | saving one file into a directory of several, and loading them together |
| Registry.dfy, Serving.dfy, Proxy.dfy | client and menu lookup, one-time overrides and reloads, the boot menu handler, the DHCP proxy's decisions |
| Pipeline.dfy | these together: edit, save, load, serve, boot |
| Sessions.dfy, LogBuffer.dfy, BootFile.dfy | boot sessions and their store, the log ring buffer, boot file inspection |

Code that changes things step by step is imperative here too: the builder, the
event bus, the registry, the resolver, the wizard's state, sessions and their
store and the ring buffer are classes, and each method is proved against a
function or predicate on values, about which the laws are then stated as lemmas.

## What the proofs found

Several promises hold only under a condition. The model keeps the code as it is;
the lemma gives the exact condition.

- Substitution does not depend on the order of the map loop exactly when no value
  makes another key's placeholder appear (`OrderIndependentExactly`); nested
  placeholders fall outside the template grammar and can depend on it
  (`NestedPlaceholdersDepend`).
- A menu script whose entry names are single words and whose texts stay on their
  lines means the menu exactly when no entry is called `start` or `failed`
  (`MenuMeaningExactly`, `GeneratedMenuExactly`). The validator lets names with spaces
  through; iPXE then reads the first word only. Some session is lost exactly when some
  first word is no label of the script (`SpacedNamesLostExactly`). When each is an entry's
  name, picking an item runs the entry of that name (`FirstWordsMean`), and the script means
  its own menu exactly when that entry's block does what its own would (`SpacedMeaningExactly`).
- A direct or override script jumps to a label it does not have exactly when its
  entry chains and the chain fails (`DirectScriptRuns`).
- An entry's block in a menu and its direct or override script have the same
  commands and make the same tries exactly when it is not an exit entry and does
  not combine wimboot with a chain URL (`SameBootExactly`). Even then a chain that fails
  leads back to the menu in the one and to a missing label in the other.
- The server has files below `/data/` only. The files of an entry with an absolute path are
  served exactly when that path is `/data` or below it (`ServedExactly`), and then they are
  those of that directory (`FolderIsServed`). An entry without a path asks below its own name
  (`NameIsFallback`), and the wizard's self-hosted netboot.xyz below `/netboot/`, where nothing
  is (`LocalNetbootIsNotServed`).
- A save writes one file and leaves the directory's others in place, and loading merges
  them all. After a wizard session the directory loads exactly when the other files have no
  server section, share no menu name and no MAC with what was saved, and their clients'
  entries still name menus (`Directory.WizardSaves`). The reference check fails exactly on a
  client of another file with an entry that no menu has any more (`DanglingExactly`), as after
  removing a menu that such a client still names (`RemovedMenuIsMissed`). A session without
  edits, or one that changes no name, MAC or client entry, leaves a directory that loads
  exactly when no other file gives a server section, a menu or a client (`UneditedSaves`); a
  directory with its menus or clients in files of their own never does. What is loaded then is what was saved
  exactly when the other files also leave the service sections alone (`LoadsNormalExactly`).
- The wizard's prompts leave four ways to save what serve refuses: an entry that is neither
  chain nor exit and has no kernel, a client without entries, removing a client's only menu, and
  skipping netboot.xyz where it is the only entry or the default (`EditKeepsValidExactly`,
  `SessionValidExactly`, `SkippedDefaultStops`).
- Saving drops boot parameters foreign to an entry's type and every client's own
  boot files; which answers that changes is exact (`SavingKeepsReplyExactly`,
  `SaveKeepsBootFile`).
- A wizard session without any edit switches disabled clients on, forgets client
  variables, replaces boot files by the standard ones, and changes the actions of
  entries it cannot hold (`UntouchedClientExactly`, `UntouchedFilesExactly`,
  `UntouchedMenuBootsExactly`).
- A first run never leaves a client's default outside its entries
  (`FirstRunKeeps`). An editing session does exactly by skipping netboot.xyz while some
  client defaults to it (`EditSessionDefaultsExactly`, `SkipTakesDefault`); on a
  configuration with a nameless menu, which loads but does not validate, also by
  renaming that menu (`EditKeepsDefaultsExactly`).
- Between the two halves of a reload, and around a whole reload that falls between
  a request's lookups, a request can fail although the configuration was sound before
  and is sound after (`HalfReloadCanFail`, `ReloadBetweenCanFail`); with a shared
  variable map one client's variables reach another (`SharedMapLeaksExactly`).
- The boot file scan misses exactly the signatures lying across the start of a chunk
  (`MissedExactly`, `SplitSignatureIsMissed`).

Where comments in the code and the code disagree, the model follows the code.
`makeRelative` (internal/infra/toml/writer.go:35-36) says that paths outside the base are returned
as they are, but they come back with `..` steps. `SessionManager.FindByMAC`
(internal/server/session.go:56) speaks of the active session, but the newest one is returned,
finished or not. `ValidateBootFile` accepts the label `BIOS` in its table
(internal/health/bootfile.go:196) but a file without a PE header only under `bios`.
`handleMessage` (internal/service/dhcp/proxy.go:201) speaks of a class that starts with PXEClient; it need only contain it.

## Model

| member | source | states |
|---|---|---|
| Text.DigitsTimesThousand | internal/server/ipxe.go:68-70 | the printed timeout, seconds followed by three zeros, denotes Timeout times 1000 milliseconds |
| Text.NumberOfDigits | internal/server/ipxe.go:68-70 | reading printed digits gives the number back |
| Domain.ValidateMenuConfig | internal/domain/client.go:21-41 | accepts exactly the menu configurations with entries, no negative timeout and a default among the entries |
| Domain.ValidateConfig | internal/domain/config.go:157-184 | accepts exactly the configurations all of whose sections, menus and clients are valid |
| Mac.ParseMAC | internal/domain/client.go:107-122 | accepts exactly the texts that mean an address: trimmed, pairs of hex digits of either case with colons or dashes, or dotted groups of four, of 6, 8 or 20 bytes, or "*" for the wildcard |
| Mac.ParsesExactly | internal/domain/client.go:107-122 | the same of the specification: it yields an address if and only if the text means it |
| Mac.NetParsesExactly | internal/service/httpboot/menuscript.go:41-46 | what net.ParseMAC reads: one separator throughout, or dotted groups, of a known length |
| Mac.MacRoundTrip | internal/domain/client.go:107-122 | parsing a printed address gives it back, exactly for the lengths 6, 8 and 20 |
| Mac.MacStringInjective | internal/server/registry.go:33-45 | different addresses have different keys |
| Substitution.SubstituteVars | internal/server/ipxe.go:166-175 | the result is that of the built-in replacements followed by the custom keys in some order of the map |
| Substitution.ReplaceIsPut | internal/server/ipxe.go:166-175 | one ReplaceAll fills exactly the holes of its key |
| Substitution.DollarFreeRewrite | internal/server/ipxe.go:166-175 | replacing one key after the other with dollar-free values is simultaneous substitution |
| Substitution.SequentialIsFill | internal/server/ipxe.go:166-175 | for independent values every visiting order gives the simultaneous substitution in which server_ip, http_port and mac win |
| Substitution.DependenceShows | internal/server/ipxe.go:171-173 | values that are not independent have a template with different results in two orders of the loop |
| Substitution.OrderIndependentExactly | internal/server/ipxe.go:166-175 | every template has the simultaneous result in every order, and the same result in any two orders, each if and only if the values are independent |
| Substitution.BuiltinsWin | internal/server/ipxe.go:166-175 | the placeholders of server address, port and MAC give the built-in values in every order, also with custom keys of their names |
| Substitution.OutcomeDecided | internal/server/ipxe.go:166-175 | with independent values the result is the simultaneous substitution |
| Substitution.DollarFreeIndependent | internal/server/ipxe.go:166-175 | dollar-free custom values are independent |
| Substitution.SubstitutionSettles | internal/server/ipxe.go:166-175 | no defined placeholder is left, and substituting again changes nothing |
| Substitution.NestedPlaceholdersDepend | internal/server/ipxe.go:171-173 | a placeholder inside a placeholder has two results, by the order of the loop |
| Substitution.ResolveChainURL | internal/service/dhcp/proxy.go:176-182 | the URL for a client that runs iPXE is the template with the built-in values |
| Substitution.ServeAutoexec | internal/service/tftp/server.go:158-165 | the autoexec script chains to the template with iPXE's own setting `${net0/mac}` in place of the MAC |
| Substitution.RoutesAgree | internal/service/tftp/server.go:158-165 | once iPXE expands its MAC setting, the DHCP route and the TFTP route lead to the same URL, the simultaneous substitution |
| Script.ParsePrint | internal/server/ipxe.go:53-150 | reading one printed command gives it back |
| Script.ParseListing | internal/server/ipxe.go:53-150 | reading a printed script gives its commands back |
| Machine.YieldsOnce | internal/server/ipxe.go:53-93 | a run of a script has one outcome |
| MenuRun.MenuHasLayout | internal/server/ipxe.go:53-93 | every entry's label leads to its own block, start and failed to theirs |
| MenuRun.BlockRuns | internal/server/ipxe.go:76-86 | running a block does what the block says and leaves it only by boot, chain, exit, failure or its retry label |
| MenuRun.BlockStaysInside | internal/server/ipxe.go:76-86 | no block runs on into the next entry's block |
| MenuRun.SessionRuns | internal/server/ipxe.go:53-93 | the script follows the user through any number of choices, cancellations and failed chains |
| MenuRun.SessionNeverLost | internal/server/ipxe.go:53-93 | no menu session ends at a missing label or by running off the script |
| MenuRun.Unattended | internal/server/ipxe.go:64-73 | left alone, a menu waits until its timeout has passed, for ever if it has none; then the default's block runs, or the first entry's |
| MenuRun.SafeNamesMean | internal/server/ipxe.go:53-93 | with safe names the labelled script means the menu |
| MenuRun.StartCollides | internal/server/ipxe.go:54 | with an entry called start it does not |
| MenuRun.FailedCollides | internal/server/ipxe.go:89 | with an entry called failed it does not |
| MenuRun.MenuMeaningExactly | internal/server/ipxe.go:53-93 | for every user and every outcome of every load the script means the menu, if and only if no entry is called start or failed |
| ClosedScripts.MenuIsClosed | internal/server/ipxe.go:53-93 | every goto target, every label of an alternative and every item has a label in the script, for any entry names; so has a default that is an entry |
| ClosedScripts.ClosedNeverLost | internal/server/ipxe.go:53-93 | a run of a closed script meets no missing label and does not run off its end, however long it is |
| ClosedScripts.MenuScriptNeverLost | internal/server/ipxe.go:53-93 | so no run of a menu script is lost, even with entries called start or failed |
| ClosedScripts.LaidOutNeverLost | internal/server/ipxe.go:53-93 | nor a run of a script whose items are read as other names than its sections', if each item has a label |
| Generator.FileURL | internal/server/ipxe.go:152-164 | a file's URL is a result of substituting in the entry's template, which the next two rows spell out |
| BootURLs.PathURL | internal/server/ipxe.go:152-160 | without placeholders the URL of an entry with a path is the server, the path with one slash at its end, and the file |
| BootURLs.NameIsFallback | internal/server/ipxe.go:152-164 | the name of an entry with a path does not matter; without one the URL is that of the path made of its name |
| BootURLs.WhatBoots | internal/server/ipxe.go:95-150 | what a machine holds when everything loads: kernel with command line, initrd and image, or wimboot and the listed files, each by its full URL; or where it has gone |
| BootURLs.ServedExactly | internal/service/httpboot/routes.go:11-28 | the URL of an entry with an absolute path leads to a file route, if and only if the path is /data or below it |
| BootURLs.FolderIsServed | internal/service/httpboot/routes.go:15-48 | for a clean path below /data/ the file that is opened is the file asked for, of that directory in the data directory |
| BootURLs.ValidEntryBoots | internal/domain/menu.go:83-111 | a valid entry that is no exit loads something or goes somewhere |
| BootURLs.OneParameterIsEnough | internal/domain/menu.go:83-111 | which single parameter makes an entry of which type valid |
| Generator.WriteWimboot | internal/server/ipxe.go:140-150 | the commands of a wimboot entry, in file order, then boot |
| Generator.WriteBootEntry | internal/server/ipxe.go:95-138 | what is written compiles the direct boot of the entry |
| Generator.WriteEntry | internal/server/ipxe.go:78-85 | what is written compiles the menu boot of the entry |
| Generator.WriteMenu | internal/server/ipxe.go:53-93 | the text is the labelled script of the entries' compiled blocks |
| Generator.Generate | internal/server/ipxe.go:29-42 | a single entry that is no exit gets its direct script, everything else a menu |
| Generator.GenerateOverride | internal/server/ipxe.go:45-51 | an override gets the direct script of its entry |
| BootMeaning.CleanFits | internal/server/ipxe.go:53-93 | fields without newlines and bars and names without spaces stay on their lines after substitution |
| BootMeaning.GeneratedMenuExactly | internal/server/ipxe.go:29-93 | if names are single words and texts stay on their lines, the generated text, read and run as iPXE does, behaves like the menu of its entries, if and only if no entry is called start or failed |
| BootMeaning.MenuShows | internal/server/ipxe.go:53-75 | on the screen are the title, every entry's label in order, and a choice with the default and the timeout |
| BootMeaning.DirectRuns | internal/server/ipxe.go:29-51 | a direct script runs exactly its block |
| BootMeaning.DirectScriptRuns | internal/server/ipxe.go:95-107 | the same from the text; the missing label is met exactly when a chain entry's chain fails |
| BootMeaning.SameBootExactly | internal/server/ipxe.go:78-107 | where substitution is decided, an entry's block in a menu and its direct or override script have the same commands, and under every outcome of the loads make the same tries and end alike, if and only if it is no exit and not wimboot with a chain URL; a chain that fails goes back to the menu in one and to the label failed in the other |
| BootMeaning.WellFormedDecided | internal/server/ipxe.go:166-175 | templates with independent values are decided |
| SpacedNames.SplitReads | internal/server/ipxe.go:58-60 | of an item whose entry name has a space the first word is read as its name |
| SpacedNames.CleanSplits | internal/server/ipxe.go:58-60 | clean fields give such items, if no name is empty or starts with a space and the default is one word |
| SpacedNames.SpacedNamesLostExactly | internal/server/ipxe.go:53-93 | some user and some outcome of the loads lead to a missing label, if and only if some entry's first word is no label of the script |
| SpacedNames.FirstWordsMean | internal/server/ipxe.go:53-93 | with safe names and every first word an entry's name, the text means the menu in which each item runs the entry its first word names |
| SpacedNames.SpacedMeaningExactly | internal/server/ipxe.go:53-93 | with names of several words the generated text, read and run as iPXE does, means the menu of its own entries, if and only if none is called start or failed and each first word names an entry whose block makes the same tries and ends alike |
| EventBus.EventBus.constructor | internal/server/eventbus.go:18-25 | the buffer size is at least 1, by default 64 |
| EventBus.EventBus.Publish | internal/server/eventbus.go:29-40 | every subscriber is offered the event once; nothing else changes |
| EventBus.EventBus.Subscribe | internal/server/eventbus.go:45-49 | a fresh channel joins at the end |
| EventBus.EventBus.Cancel | internal/server/eventbus.go:52-64 | the channel is removed and closed; the in-place shift removes its first occurrence |
| EventBus.RemoveKeeps | internal/server/eventbus.go:57-62 | of distinct subscribers exactly one goes, the others keep their order |
| BusRuns.StepKeeps | internal/server/eventbus.go:29-67 | each atomic step keeps the invariant: no panic, every open channel registered once and no closed one, buffers bounded, deliveries in order and complete |
| BusRuns.EveryRun | internal/server/eventbus.go:18-67 | the invariant holds in every state of every schedule |
| BusRuns.SendKeeps | internal/server/eventbus.go:33-39 | a send under the read lock keeps it |
| BusRuns.CancelKeeps | internal/server/eventbus.go:54-63 | removal and close keep it |
| BusRuns.OwnOrder | internal/server/eventbus.go:29-40 | what a channel takes from one publisher is in that publisher's order |
| BusRuns.SubscriberSees | internal/server/eventbus.go:29-67 | what a subscriber got or will get from a publisher is in that publisher's order and was published between its registration and its removal |
| BusRuns.PublishIsOffer | internal/server/eventbus.go:29-40 | a call of Publish that nobody interrupts does in the state machine what it does to the object: each registered channel is offered the event once |
| Loader.FindSimilar | internal/infra/toml/loader.go:172-202 | a best-scoring name, or none when no name reaches three points |
| Loader.SimilarExactly | internal/infra/toml/loader.go:172-202 | a name reaches three points, if and only if, case aside, it has the first three letters in common or one name is part of the other; the same name scores highest |
| Loader.MergeMenus | internal/infra/toml/loader.go:121-127 | one file's menus are appended, or a duplicate name is reported rightly |
| Loader.MergeClients | internal/infra/toml/loader.go:130-145 | one file's clients are appended, or a duplicate MAC or second wildcard is reported rightly |
| Loader.CheckReferences | internal/infra/toml/loader.go:153-166 | every client entry names a menu, or one that does not is reported |
| Loader.Merge | internal/infra/toml/loader.go:82-169 | success means one server section, distinct names and MACs and no dangling entry, with the files' concatenation and the last sections; an error names a real fault |
| Loader.ExplainedIsRefused | internal/infra/toml/loader.go:82-169 | a fault that an error names makes the files unacceptable, so merge succeeds exactly on the acceptable ones |
| MergeOrder.OneServerSection | internal/infra/toml/loader.go:94-101 | with named files the check accepts exactly one server section |
| MergeOrder.FlatPermutes | internal/infra/toml/loader.go:82-169 | permuting files permutes what they contribute |
| MergeOrder.OrderDoesNotMatter | internal/infra/toml/loader.go:82-169 | acceptance, server section and the collections of menus and clients do not depend on the order of the files |
| SaveLoad.MenuTypeRoundTrip | internal/domain/menu.go:37-50 | the five known types print and parse back, others are refused |
| SaveLoad.TypesIgnoreCase | internal/domain/menu.go:44-50 | a type is read in either case |
| SaveLoad.ServicesToRaw | internal/infra/toml/writer.go:73-128 | which service sections are written, and with what |
| SaveLoad.MenusToRaw | internal/infra/toml/writer.go:130-167 | each menu is written with the parameters of its type only |
| SaveLoad.ClientsToRaw | internal/infra/toml/writer.go:169-188 | each client is written, the wildcard as "*", without its boot files |
| SaveLoad.ConfigToRaw | internal/infra/toml/writer.go:53-191 | the raw file of a configuration |
| SaveLoad.ParseFile | internal/infra/toml/parser.go:145-214 | reads exactly the files with known types and MACs, and gives their converted sections, which the next two rows pin down |
| AbsentKeys.AbsentIsExplicit | internal/infra/toml/parser.go:226-378 | leaving out an enabled flag, the startup check or a menu's type is as if true or install were written |
| AbsentKeys.GivenIsTaken | internal/infra/toml/parser.go:226-378 | what is written is loaded field by field |
| AbsentKeys.ForbiddenExactly | internal/infra/toml/parser.go:341-378 | a machine is turned away, if and only if the client found for it says enabled = false in its file |
| SaveLoad.SaveThenLoad | internal/infra/toml/parser.go:216-378 | a written configuration is readable if and only if its types and MACs are known; then merging that one file gives its normal form |
| SaveLoad.NormalConsistent | internal/infra/toml/loader.go:82-169 | the normal form is accepted by merge if and only if the original is |
| SaveLoad.NormalSettles | internal/infra/toml/writer.go:53-191 | normalising twice is normalising once; it keeps validity, readability and merge's conditions both ways |
| SaveLoad.UnchangedExactly | internal/infra/toml/writer.go:53-191 | a configuration comes back from its file as it was, if and only if sections that are off are empty, no duration is negative, entries have their own parameters only and clients no boot files |
| SaveLoad.NormalTruth | internal/domain/config.go:157-184 | the normal form is valid if and only if the original is |
| SaveLoad.SaveKeepsMenuBoot | internal/infra/toml/writer.go:147-164 | a saved valid entry asks a menu for the same actions, before substitution, if and only if it is an exit or chain entry or has no chain URL |
| Paths.AbsJoin | internal/infra/toml/loader.go:68-77 | joining and making absolute walks from the directory's components |
| Paths.UpsAndDown | internal/infra/toml/writer.go:37-50 | the relative path leads from the base back to the target |
| Paths.DataDirRoundTrip | internal/infra/toml/loader.go:68-77 | an absolute data directory written relative to any directory loads back as itself, inside the base or outside |
| Paths.AnyDataDirLoads | internal/infra/toml/loader.go:68-77 | what any data directory loads back as; itself if and only if it is empty, or absolute and clean |
| Paths.ResolvePath | internal/service/tftp/server.go:184-207 | a request is resolved if and only if it leads to the bootloader directory or below, and then to where it leads |
| Paths.BaseIsProper | internal/service/tftp/server.go:186-190 | the bootloader directory has proper components wherever the server runs |
| Paths.CleanedRequest | internal/service/tftp/server.go:193-198 | cleaning first and joining then leads where walking the request leads |
| Paths.PrefixIsComponents | internal/service/tftp/server.go:202-204 | the string prefix test with separator is the component prefix test |
| Paths.RequestsStayInside | internal/service/tftp/server.go:184-207 | a request is accepted if and only if its components extend the base's; under the root base only the root itself |
| Paths.SlashedRequestsStay | internal/service/tftp/server.go:193-198 | a request that starts with a slash never leaves the base |
| Wizard.WizardState.StepNetboot | internal/ui/cli/wizard/steps.go:336-407 | the netboot entry goes everywhere and comes back, if wanted, everywhere |
| Editing.KeptEntriesInOrder | internal/ui/cli/wizard/steps.go:367-375 | the entries that a client keeps stay in order |
| Editing.KeptMenusInOrder | internal/ui/cli/wizard/steps.go:358-365 | so do the menus: what is kept of a list is what is kept of its first part and then of the rest |
| Wizard.WizardState.MenusEdit | internal/ui/cli/wizard/steps.go:491-507 | an edited menu, with its new name in every client's entries and defaults |
| Editing.EditMeansEntered | internal/ui/cli/wizard/steps.go:624-690 | an edited entry has the name, label and type entered and asks for the actions of what was entered, whatever it was before |
| Editing.EnteredKernelBoots | internal/ui/cli/wizard/steps.go:560-620 | and a machine boots it with the kernel, command line and initrd entered, from the path entered |
| Editing.EditedMenuIsSaved | internal/ui/cli/wizard/steps.go:165-196 | saved after such an edit, the file has that entry in its place and the others as they were |
| Editing.AddedMenuIsSaved | internal/ui/cli/wizard/steps.go:471-476 | the same of an entry that was added |
| Editing.RenameKeepsChoices | internal/ui/cli/wizard/steps.go:491-507 | renaming a menu to a new name leaves every client's entries and default naming the same menus of the list |
| Editing.RemoteNetboot | internal/ui/cli/wizard/steps.go:379-386 | the remote entry chains to netboot.xyz, is the only one of its name and the last choice of every client |
| Editing.LocalNetbootIsNotServed | internal/ui/cli/wizard/steps.go:393-404 | the self-hosted entry chains to a path that the server has no route for |
| Editing.UntouchedMenuExactly | internal/ui/cli/wizard/state.go:154-173 | an entry comes through the wizard unchanged, if and only if it has no more than the wizard holds |
| Wizard.WizardState.MenusRemove | internal/ui/cli/wizard/steps.go:528-550 | a removed menu is gone from every client's entries and defaults |
| Editing.RemoveKeepsOthers | internal/ui/cli/wizard/steps.go:528-550 | the other menus stay in order; a client loses that name as often as it listed it and nothing else, and its default only if it was that name |
| Wizard.WizardState.StepWildcard | internal/ui/cli/wizard/steps.go:703-709 | a wildcard in last place gets new entries, its default untouched |
| Wizard.WizardState.ClientsAdd | internal/ui/cli/wizard/steps.go:784-793 | a new client goes before a wildcard in last place |
| Wizard.WizardState.ClientsEdit | internal/ui/cli/wizard/steps.go:901-958 | an edited client keeps its MAC; with one entry or none it has neither default nor timeout |
| Editing.EditedClientIsSaved | internal/ui/cli/wizard/steps.go:901-958 | saved after such an edit, the file has the client with the name, entries, default and timeout entered under its old MAC, and the others as they were |
| Editing.AddedClientIsSaved | internal/ui/cli/wizard/steps.go:783-793 | the same of a client that was added, in front of a wildcard in last place, else at the end |
| Wizard.EditKeepsRefs | internal/ui/cli/wizard/steps.go:336-958 | every edit keeps every client entry naming a menu |
| Wizard.EditKeepsDefaultsExactly | internal/ui/cli/wizard/steps.go:336-958 | one edit keeps every default among its client's entries, if and only if it is none of three named cases |
| Wizard.EditKeepsWildcardLast | internal/ui/cli/wizard/steps.go:783-838 | a wildcard in last place stays last through an edit, and MACs stay readable |
| Wizard.RunKeeps | internal/ui/cli/wizard/steps.go:109-204 | over every session client entries name menus, MACs stay readable and a wildcard in last place stays last |
| Wizard.SessionDefaultsExactly | internal/ui/cli/wizard/steps.go:109-204 | defaults are valid at every moment of a session, if and only if each of its edits spares them |
| Wizard.EditSessionDefaultsExactly | internal/ui/cli/wizard/steps.go:109-204 | in an editing session on menus with names, if and only if netboot.xyz is never skipped while some client defaults to it |
| Wizard.SkipTakesDefault | internal/ui/cli/wizard/steps.go:358-377 | such a session, from the configuration a first run writes: the default client is left with a default it has no entry for |
| Wizard.DefaultIsLoaded | internal/ui/cli/wizard/state.go:97-102 | that configuration, loaded, is the state that the wizard starts from |
| Wizard.FirstRunKeeps | internal/ui/cli/wizard/steps.go:16-62 | a first run keeps defaults valid throughout, its wildcard last at every moment, entries naming menus and MACs readable |
| Wizard.WizardState.ClientsInsert | internal/ui/cli/wizard/steps.go:721-727 | the first run's addition is the editor's, as the wildcard is last |
| Wizard.LoadedStateOk | internal/ui/cli/wizard/state.go:195-255 | a configuration that merge accepted gives a state with all of that |
| Wizard.StateToConfig | internal/ui/cli/wizard/state.go:154-191 | the loops build one menu and one client each, in order |
| Wizard.ConfigToState | internal/ui/cli/wizard/state.go:225-255 | the loops build one state each, in order |
| Wizard.UntouchedClientExactly | internal/ui/cli/wizard/state.go:175-189 | a client survives an unedited session unchanged, if and only if it is enabled and has neither variables nor boot files |
| Wizard.ArchsOf | internal/ui/cli/wizard/state.go:210-223 | notes exactly the architectures with a boot file |
| Wizard.FilesFor | internal/ui/cli/wizard/state.go:140-152 | gives exactly those architectures their standard file |
| Editing.WizardFiles | internal/ui/cli/wizard/state.go:140-152 | with all architectures these are the four standard file names |
| Wizard.UntouchedFilesExactly | internal/ui/cli/wizard/state.go:140-152 | after an unedited session a machine is served the same file, if and only if it was none or the standard one |
| Wizard.UntouchedMenuBootsExactly | internal/ui/cli/wizard/state.go:154-173 | after an unedited session an entry asks for the same actions, before substitution, if and only if the wizard holds all that its boot uses |
| Wizard.SessionRefers | internal/ui/cli/wizard/steps.go:109-204 | after any session every client entry names a menu |
| Validity.StateValidExactly | internal/domain/config.go:157-184 | what the wizard saves validates, if and only if the services do and its state is valid; then every default is among its client's entries |
| Validity.EditKeepsValidExactly | internal/ui/cli/wizard/steps.go:336-958 | an edit keeps a valid state valid, if and only if it is none of five named cases |
| Validity.SessionValidExactly | internal/ui/cli/wizard/steps.go:109-204 | menus and clients validate whenever a session is saved, if and only if each of its edits keeps them so |
| Validity.DefaultStateValid | internal/ui/cli/wizard/state.go:80-103 | a first run starts from a valid state |
| Directory.LoadedAround | internal/infra/toml/loader.go:17-66 | loading gives the menus and clients of all files in order, and of each section the last one given |
| Directory.BesideExactly | internal/infra/toml/loader.go:82-169 | a file with a server section is accepted among others, if and only if they have none, and together menu names and MACs are distinct and every entry names a menu |
| Directory.SavedExactly | internal/infra/toml/writer.go:15-33 | the same of the directory after a save, in terms of what was saved |
| Directory.DanglingExactly | internal/infra/toml/loader.go:153-166 | after a wizard session the reference check fails, if and only if a client of another file has an entry that is neither a saved menu nor another file's |
| Directory.WizardSaves | internal/ui/cli/wizard/steps.go:165-196 | what any session saves is readable, and the directory it leaves is accepted, if and only if the other files have no server section, menu names and MACs are distinct together, and the other files' clients refer to menus that are still there |
| Directory.FirstRunSaves | internal/ui/cli/init.go:23-37 | the same of a first run, which only looks for the file that it writes |
| Directory.UneditedSaves | internal/ui/cli/edit.go:21-29 | saving what was loaded with the same names, MACs and client entries leaves an accepted directory, if and only if no other file gives a server section, a menu or a client |
| Directory.UntouchedSaves | internal/ui/cli/edit.go:21-29 | the same of a session without edits |
| Directory.RemovedMenuIsMissed | internal/ui/cli/wizard/steps.go:528-550 | removing a client and the menu it used, which another file's client still names, leaves a directory that is refused for that one entry |
| Directory.LoadsNormalExactly | internal/infra/toml/loader.go:17-66 | an accepted directory loads as what was saved, if and only if the other files have no menus and clients, and no later one changes a service section and no earlier one fills one that was not written |
| Directory.LoadedIsWritable | internal/infra/toml/parser.go:145-214 | what was loaded from parsed files has known types and MACs only, so that it can be saved and read back |
| Registry.IndexIsScan | internal/server/registry.go:93-104 | the index finds what a scan finds: the last client of the MAC, else the last wildcard |
| Registry.FindsExactly | internal/server/registry.go:33-45 | a client is found if and only if one has the MAC or is the wildcard |
| Registry.MenuIndexHolds | internal/server/menu.go:59-64 | the menu index holds exactly the menus' names, each with a menu of that name |
| Registry.MenuIndexLast | internal/server/menu.go:59-64 | of several menus with one name the index has the last |
| Registry.ResolutionUnique | internal/server/menu.go:24-38 | a resolution is determined by the index and the names |
| Registry.ClientRegistry.LoadClients | internal/server/registry.go:93-104 | the loop builds the index and the wildcard afresh |
| Registry.ClientRegistry.FindClient | internal/server/registry.go:33-45 | exact match, else wildcard, else none |
| Registry.ClientRegistry.ConsumeBootOverride | internal/server/registry.go:58-69 | gives the MAC's override, or nothing, and removes it |
| Registry.MenuResolver.ResolveEntries | internal/server/menu.go:24-38 | all entries in the order asked for, or the first one missing |
| Registry.MenuResolver.FindByName | internal/server/menu.go:41-47 | the last loaded menu of that name, if and only if there is one |
| Registry.ConfigManager.Load | internal/server/config.go:26-40 | only a valid configuration is taken, a failed load changes nothing |
| Registry.ConfigManager.Reload | internal/server/config.go:43-64 | the same, and nothing without an earlier load |
| Registry.ReloadServer | internal/server/server.go:96-110 | after a success registry and menus are those of the new configuration, after a failure nothing changed |
| Serving.MenuScriptHandler.ServeHTTP | internal/service/httpboot/menuscript.go:38-105 | every request is answered as the lists, overrides and variables say, and changes only the override of its MAC and a shared variable map |
| Serving.ScriptVars | internal/service/httpboot/menuscript.go:62-73 | a script is made with the server's address, the machine's own MAC, and the client's variables over those of the base map |
| Serving.FailsExactly | internal/service/httpboot/menuscript.go:73-96 | an internal error comes exactly from an enabled client without entries or with a dangling one, unless an override hides it |
| Serving.SoundAnswers | internal/server/menu.go:24-38 | on a loaded configuration no request fails, and a menu has all the client's entries in order |
| Serving.RunStaysSound | internal/server/server.go:96-110 | that holds after any run of overrides, reloads, failed ones included, and requests, whole or in pieces |
| Serving.SplitIsReply | internal/service/httpboot/menuscript.go:48-98 | a request whose lookups see different states is answered like one with the clients of its lookup and the menus of its resolution |
| Serving.SplitFailsExactly | internal/service/httpboot/menuscript.go:48-96 | it fails if and only if the client found is enabled, no override is used, and it has no entries or one without a menu by the time of the resolution |
| Serving.RequestIsBoth | internal/service/httpboot/menuscript.go:48-76 | a whole request does to the site what its lookup and then the taking of its override do |
| Serving.UninterruptedIsRequest | internal/service/httpboot/menuscript.go:48-98 | a request in pieces with nothing between them is answered and leaves the site like a whole one |
| Serving.UndisturbedAnswers | internal/service/httpboot/menuscript.go:48-96 | whatever overrides and other requests, whole or in pieces, come between its steps, it does not fail as long as no reload does |
| Serving.ReloadBetweenCanFail | internal/server/server.go:96-110 | a whole reload between its steps can make it fail, although the site is sound before and after |
| Serving.HalfReloadCanFail | internal/server/server.go:96-110 | between the two updates of one reload a request can fail, although before and after none can |
| Serving.OverrideIsPending | internal/server/registry.go:50-69 | after any run, with requests whole or in pieces, a MAC's override is the last one set since its machine last took one |
| Serving.OverridesConserved | internal/server/registry.go:50-69 | over any run, with requests whole or in pieces, every override set for a MAC is taken by a request of that very MAC, is replaced, or is still there |
| Serving.ServedOnce | internal/service/httpboot/menuscript.go:75-92 | an override is served to its own machine, with the menu it names, and once; no other machine's answer changes |
| Serving.NilMapStaysNil | internal/service/httpboot/menuscript.go:62-73 | with a nil base map no request's variables depend on earlier requests |
| Serving.SharedMapLeaksExactly | internal/service/httpboot/menuscript.go:62-73 | a request changes the entries or variables that another machine's request hands to the generator, if and only if the map is shared, both get scripts, and the first client has a variable the other neither sets nor had there before |
| Serving.BootfileForClient | internal/service/dhcp/proxy.go:162-173 | the client's own file for the architecture, else the global one |
| Serving.SaveKeepsBootFile | internal/infra/toml/writer.go:169-188 | saving keeps the served boot file, if and only if the client had none of its own or the global one |
| Proxy.ParseArch | internal/domain/session.go:34-47 | an architecture is recognised by exactly its codes, which the row of PlainFirmware spells out |
| Proxy.ArchFromOption93 | internal/service/dhcp/offer.go:15-26 | the option's first two bytes, most significant first, name the architecture |
| Proxy.IsIPXE | internal/service/dhcp/offer.go:75-78 | iPXE is running exactly if the user class mentions it |
| Proxy.ProxyServer.HandleMessage | internal/service/dhcp/proxy.go:184-268 | exactly the discovers and requests of PXE machines of a known architecture with something to boot are answered: firmware with its file and PXE options, iPXE with its URL, requests with an acknowledgement; firmware without own files with the file named for its code, if there is one |
| Proxy.ProxyServer.PlainFirmware | internal/service/dhcp/proxy.go:213-239 | that file by the option's bytes: 0 for BIOS, 6 for 32-bit, 7 and 9 for 64-bit UEFI, 11 for ARM64 |
| Proxy.ChainIsSomewhere | internal/service/dhcp/proxy.go:227-233 | with a configured URL a machine that runs iPXE is never left without one |
| Proxy.DocumentedChainLeadsHome | internal/ui/cli/wizard/state.go:134-137 | with the standard URL a machine is sent to the menu of its own MAC, which the handler reads back exactly for known lengths |
| Pipeline.WriteThenLoad | internal/infra/toml/writer.go:15-33 | writing a configuration into any directory and loading that directory: accepted if and only if its menus and clients fit together with the other files'; then the data directory is absolute, and the normal form of the same configuration comes back if and only if that was absolute and clean, or empty, and the other files have no menus and clients and leave the service sections alone |
| Pipeline.SavedStartsExactly | internal/ui/cli/serve.go:50-56 | serve starts on the directory that a wizard state was saved to, if and only if the lists fit together with the other files', the state is valid, and so are the other files' entries and the services that are loaded |
| Pipeline.StartedIsUsable | internal/domain/config.go:157-190 | what serve starts with has an interface, an absolute data directory, ports that exist, and a URL for every iPXE machine |
| Pipeline.LittleIsNeeded | internal/domain/config.go:157-190 | without menus and clients no more than that is asked for |
| Pipeline.AloneStartsExactly | internal/ui/cli/serve.go:50-56 | in a directory without other files: if and only if names and MACs are distinct, the state is valid and so are the saved services |
| Pipeline.StartedSiteAnswers | internal/ui/cli/serve.go:50-66 | on any directory that serve starts on, after any run of the server, every configured, enabled machine gets a script |
| Pipeline.EditedSiteAnswers | internal/ui/cli/wizard/steps.go:165-196 | from any accepted configuration through any wizard session into a directory with any other files: exactly when serve starts on it; if it does, after any run of the server every configured, enabled machine gets a script |
| Pipeline.SkippedDefaultStops | internal/ui/cli/wizard/steps.go:358-377 | after the session that takes the default client's default away serve refuses to start, whatever else is in the directory |
| Pipeline.SaveKeepsDirectBoot | internal/infra/toml/writer.go:147-164 | which valid entries, booted directly, ask for the same actions before substitution once saved, both ways |
| Pipeline.SavedReply | internal/infra/toml/writer.go:15-33 | saving what was loaded is accepted again if and only if the other files give no server section, menu or client; then every request is answered as before, with each entry as it was saved |
| Pipeline.SavingKeepsReplyExactly | internal/infra/toml/writer.go:15-33 | in that case the answer shows the same and asks for the same actions, if and only if no entry it boots carries a parameter foreign to its type |
| Pipeline.SameReplySameScripts | internal/service/httpboot/menuscript.go:73-104 | answers that show the same and ask for the same actions are sent as the same scripts |
| Pipeline.ServedMenuMeans | internal/service/httpboot/menuscript.go:89-104 | a served menu whose names are single words and whose texts stay on their lines, read and run by the machine, is the menu of the client's own entries, if and only if none is called start or failed |
| Pipeline.UnattendedBoots | internal/service/httpboot/menuscript.go:89-104 | a machine left alone at a served menu boots the default entry, once as many seconds have passed as its client's timeout says |
| Pipeline.ServedMenuIsClosed | internal/service/httpboot/menuscript.go:89-104 | the script of a served menu with single-word names is closed and no run of it is lost, also with entries called start or failed; a validated client's default has its label |
| Pipeline.ServedSpacedMenu | internal/service/httpboot/menuscript.go:89-104 | with names of several words: when some session of the served menu is lost, and when it is the menu of the client's own entries, each exactly |
| Pipeline.CleanMenuReply | internal/service/httpboot/menuscript.go:89-104 | clean fields and variables and single-word names give such a menu |
| Sessions.AllowedExactly | internal/domain/session.go:83-92 | allowed is failing, as long as the session is not over, the next stage, and from iPXE straight to the boot |
| Sessions.PathsAreShort | internal/domain/session.go:83-92 | a session's states strictly advance and number at most six |
| Sessions.EndIsReachable | internal/domain/session.go:83-92 | a session that is not over can come to its end, or fail at once |
| Sessions.WholeBoots | internal/domain/session.go:83-92 | a whole boot takes six events through the menu, which is the most there can be, or five without it |
| Sessions.SessionHistory | internal/domain/session.go:114-145 | the same of every session's events; it is over exactly in the states done and failed |
| Sessions.IDsDiffer | internal/server/session.go:73-76 | different counter values give different identifiers at any times |
| Sessions.NumberedDistinct | internal/server/session.go:73-76 | no two sessions of a store share an identifier |
| Sessions.Session.Transition | internal/domain/session.go:114-145 | exactly the allowed states are entered, with one more event; otherwise nothing changes |
| Sessions.OwnSlot | internal/infra/store/sessions.go:32-42 | with distinct identifiers an update hits exactly the session's own slot |
| Sessions.MemorySessionStore.Update | internal/infra/store/sessions.go:32-42 | the first session with the identifier is replaced, or nothing happens |
| Sessions.MemorySessionStore.FindByMAC | internal/infra/store/sessions.go:45-55 | the newest session of the MAC |
| Sessions.MemorySessionStore.FindActive | internal/infra/store/sessions.go:58-68 | the sessions that can still go somewhere, in order |
| Sessions.MemorySessionStore.History | internal/infra/store/sessions.go:72-83 | at most limit sessions of the MAC, newest first |
| Sessions.SessionManager.Start | internal/server/session.go:27-43 | a fresh session with a new identifier is appended |
| Sessions.SessionManager.Transition | internal/server/session.go:46-54 | an allowed move changes the session; one from the store keeps its slot and the store its list |
| Sessions.NewestExactly | internal/infra/store/sessions.go:72-83 | the newest-first list holds exactly the sessions of the MAC |
| Sessions.NewestInOrder | internal/infra/store/sessions.go:72-83 | of two sessions in it the later stored stands first |
| Sessions.ActiveExactly | internal/infra/store/sessions.go:58-68 | the active list holds exactly the unfinished sessions |
| Sessions.ActiveInOrder | internal/infra/store/sessions.go:58-68 | in the order they were stored in |
| LogBuffer.LogBuffer.Add | internal/infra/store/logbuf.go:42-50 | the history grows by the entry, of which the array keeps the newest part |
| LogBuffer.LogBuffer.Recent | internal/infra/store/logbuf.go:53-70 | the newest entries of the history, newest first, at most as many as asked for and kept |
| LogBuffer.LogBuffer.Filter | internal/infra/store/logbuf.go:74-99 | the first matches, newest first, up to the limit |
| LogBuffer.FilterExactly | internal/infra/store/logbuf.go:74-99 | without a limit exactly the kept entries with the MAC, the service and at least the level asked for |
| LogBuffer.MatchingInOrder | internal/infra/store/logbuf.go:74-99 | in the order of the window |
| LogBuffer.UnfilteredIsRecent | internal/infra/store/logbuf.go:74-99 | without criteria and with a positive limit Filter is Recent |
| LogBuffer.WindowIsTail | internal/infra/store/logbuf.go:53-70 | up to its size a buffer forgets nothing, and a smaller request is a prefix of a larger one |
| LogBuffer.NextSlot | internal/infra/store/logbuf.go:46 | the write position is the number of entries ever added modulo the size |
| BootFile.ContainsBytes | internal/health/bootfile.go:171-185 | true if and only if the pattern occurs |
| BootFile.MatchesAnySignature | internal/health/bootfile.go:162-169 | true if and only if one of the three signatures occurs |
| BootFile.SignaturesSpelled | internal/health/bootfile.go:131-138 | the signatures are the words iPXE, UNDI code segment and gPXE |
| BootFile.ScanForIPXE | internal/health/bootfile.go:141-160 | terminates, and is true if and only if some signature was read in one piece |
| BootFile.MissedExactly | internal/health/bootfile.go:141-160 | after a full header read a signature is missed if and only if the start of a chunk lies inside it |
| BootFile.SplitSignatureIsMissed | internal/health/bootfile.go:141-160 | a file with a signature that the scan does not see |
| BootFile.ValueOfLE | internal/health/bootfile.go:93-107 | reading little-endian bytes gives the number that was written |
| BootFile.LEOfValue | internal/health/bootfile.go:93-107 | writing the number that was read gives the bytes back |
| BootFile.MachineOnce | internal/health/bootfile.go:93-107 | a header is that of at most one machine |
| BootFile.ValidatePE | internal/health/bootfile.go:86-130 | valid if and only if it is the PE header of a known machine that fits the label; otherwise one problem, the right one; no byte outside the header is read |
| BootFile.FitsExactly | internal/health/bootfile.go:187-201 | which machine numbers fit which labels |
| BootFile.ValidateBootFile | internal/health/bootfile.go:29-83 | valid if and only if there is no problem; exactly which files are accepted and which carry a signature |

## Left out

- Sockets, DHCP packets on the wire, TFTP and HTTP transfers, TLS, downloads, interface detection and the network health probes: input and output.
- TOML text and the printing of durations: the raw structs are the boundary, durations are values; an unreadable duration cannot be given.
- Clocks and log messages: times are arguments, messages are not modelled.
- Strings are sequences of characters, not bytes; trimming and lower-casing are those of ASCII. net.ParseMAC, path/filepath and strings are written from Go's documented rules.
- The iPXE interpreter knows the commands that the generator writes, `|| goto` as the only alternative, and `${selected}`; other settings are left as text.
- Script.OneLine: excludes line breaks and double bars. iPXE also ends a command at a word `&&` or `;`, which is read as text here, so a label or command line with such a word is outside what the model says.
- Data races on a shared variable map and slices shared between wizard clients: values are copied here. Requests interleave as whole calls or as lookups and takings of overrides of their own, reloads as whole calls or by halves (`HalfReloadCanFail`).
- BusRuns.EveryRun: the bus is modelled with publishers that run forever or stop; contexts, goroutine scheduling and fairness are not.
- Loader.FindSimilar: which of several equally good names is suggested depends on the order of the map, so any of them may be returned.
- LogBuffer.LogBuffer.Recent: a negative n panics in the original and is excluded; the slog handler around the buffer is not part of this model.
- Wizard.StateToConfig: menus and clients; boot files are `FilesFor`, and the fixed service sections and the server prompts, which are copied fields, are not modelled.
- Sessions.SessionManager.constructor: starts from an empty store, as the process does; the process-wide counter is a field.
- BootMeaning.GeneratedMenuExactly: stated for single-word names and texts without newlines or double bars, which otherwise would break a line; `SpacedMeaningExactly` is the statement for names of several words.
- Pipeline.ServedMenuMeans: the same; `ServedSpacedMenu` is the statement for names of several words.
- BootURLs.ServedExactly: the paths are clean, so that the request multiplexer does not redirect them; queries, percent signs and the index page of a directory are not modelled.
- SpacedNames.SpacedMeaningExactly: not for names that are empty or start with a space, nor for a default of several words, which iPXE's choose command does not take.
- Wizard.UntouchedMenuBootsExactly: compares actions before substitution; different templates can still give one text, as with a variable whose value spells the other's file.
- BootMeaning.SameBootExactly: stated where the entry's templates have one result, as substitution otherwise may differ between two scripts.
- BootFile.ValidateBootFile: the file is given as the bytes that can be read, so a read error in the middle is the end of the file; offsets are 64 bits wide, as int is there.
- Validator messages, Wake-on-LAN packets, PXE option 43 bytes, service start and stop, listing methods: they would only add easy members.
