# Cryptile, modelled and verified

Cryptile is a read-only Vaultwarden client: it logs in, keeps a passphrase-sealed session,
resolves `vw://collection/item#field` through a sealed sync cache or a full sync, and exports
collections as `KEY=value` lines. This project models those parts in Dafny and proves what they
promise. `dafny verify dfyconfig.toml` checks everything.

| files | part |
|---|---|
| `Results`, `Text`, `Sorting` | results, the string operations used, key order of ordered maps |
| `Base64`, `Crypto`, `ToySuite`, `Hkdf` | base64, PKCS7, CBC, keys, HKDF; the external primitives are fields of `Crypto.Suite` |
| `EncStrings`, `SealedLine`, `Keyring`, `SyncCache`, `Webauthn` | the sealed text formats and base64url tokens |
| `Mapping`, `SealedItems` | from an API cipher to a bag of fields, and back from a sealed item |
| `Api`, `TwoFactor`, `Sessions`, `Login`, `Ops`, `SessionRuns`, `LoginOvertaken` | error classification, second factors, login, refresh discipline, keyring runs |
| `Vault`, `SyncExact`, `Provider`, `CacheAgreement`, `CacheFreshness`, `VaultRuns`, `FileRuns`, `Views`, `SampleVault` | ref resolution with and without the cache, as functions, against the server's replies, as methods over a cache file, and over runs; a one-item server for the concrete cases |
| `SaveLogin` | temp-file-and-rename writers with dying processes and power losses |
| `EnvExport`, `Refs` | the export printer and refs |

## What is assumed

* `Crypto.Suite.Valid` is all that is assumed of AES, HMAC-SHA256, Argon2id and UTF-8: the block
  cipher keeps lengths and decryption undoes encryption (that encryption also undoes decryption is
  proved, by counting the blocks), tags have 32 bytes, Argon2id gives 64, UTF-8 text round-trips.
  Nothing is assumed of RSA. `ToySuite` meets the assumption.
* JSON codecs read back what they write (`Sessions.Lossless`) and write without outer white space
  (`Sessions.TightWriter`).
* A rename is atomic, file operations reach the disk in order, and a power loss cuts content that
  was never synced but none that was.
* The server gives every cipher its own id, never used again, and no collection ids to ciphers
  without an organization (`CacheAgreement.NoLooseCollections`). Where a sync must unwrap an
  organization's key, `SampleVault.Sample.Fits` says so, and `SampleVault.ToySample` meets it.
* Salts, IVs, clocks, server replies, fetches, disk failures and crash points are arguments, so
  every statement holds for all of them.

## Where code and documentation disagree

The model follows the code.

* The cached path rechecks the name of a fetched cipher, but not its collections, nor that the
  collection still has its name, nor that the account still has the organization's key. The claim
  that every mutation misses
  (openspec/changes/archive/2026-09-09-add-sync-cache/proposal.md:57-63) is false for moved items,
  which are served (`CacheFreshness.MovedItemIsServedStale`) or fail where the scan finds nothing
  (`CacheFreshness.MovedItemFailsStale`), for renamed collections
  (`CacheFreshness.RenamedCollectionIsServedStale`) and for lost organization keys
  (`CacheFreshness.LostOrgKeyIsServedStale`). `CacheFreshness.CachedGetFaithfulIff` is the exact
  condition, for every cache and every state of the server.
* Nothing is locked between a command's unseal and its reseal, so a command that refreshes its
  session can write an earlier login's session over that of a login that completed meanwhile
  (`LoginOvertaken.OvertakenLoginIsLost`). `SessionRuns.KeyringIsFaithfulIff` and
  `SessionRuns.LateResealFaithfulIff` are the exact conditions.
* `get` splits a locus at its first `/`, and a ref's text at its first `#`. An item listed in a
  collection `P/C` cannot be got by name (`Views.NestedCollectionIsUnreachable`), nor can one with
  `#` in either name; `Views.ExportedTextIsGettableIff` is the exact condition. A collection called
  `personal` is exported, but `get` goes to the personal vault
  (`Views.PersonalCollectionIsShadowed`).
* A code factor that is challenged is sent again unchanged inside the same login
  (`Login.ChallengedCodeIsResent`).
* Every endpoint's 400 with the challenge text is a challenge, prelogin included
  (`Login.AsksForFactorIff`).
* `map_cipher` fails on any field that does not open, although its comment says such fields are
  skipped (`SealedItems.UnreadableNotesFail`, and exactly when in `SealedItems.MappingFailsIff`).
* Without a preference the second factor follows the server's order, not the documented one
  (`TwoFactor.ServerOrderBeatsDocumentedOrder`, `TwoFactor.PickIsDocumentedIff`).
* A crash during `save_login` over an earlier login can leave the new config beside the old
  keyring, which still counts as logged in, although the comment says it leaves "not logged in"
  (`SaveLogin.NeverTornIff`). The config is not synced before it is renamed into place, so a power
  loss can empty it in a state that counts as logged in (`SaveLogin.PowerLossEmptiesConfig`,
  `SaveLogin.ConfigIsWholeIff`).
* `open` trims the plaintext (`Keyring.OpenGivesBackIff`).
* Lines printed before a value with NUL are not withdrawn (`EnvExport.ExportEnv`).
* EncString types 1 and 2 open alike, and `02.` or `+2.` are accepted for `2.`
  (`EncStrings.OpensIffPrinted`).
* After a failed attempt the second refresh is again of the session the command started with, not
  of the one the first refresh returned (`Ops.Disciplined`).

## Model

The main results come first, from `FileRuns.FileNeverMatters` to `Refs.DisplayParsesIff`; the rest builds up to them.

| member | source | states |
|---|---|---|
| FileRuns.FileNeverMatters | crates/vaultwarden/src/provider.rs:562-640 | at every point of every run over the sealed file, `get_secret` with the file answers exactly what it answers without one |
| FileRuns.FileGetDuringRun | crates/vaultwarden/src/provider.rs:562-640 | the same with the server changing, requests lost and other commands running in between: the answer without a file in one of the states between start and end, or its own sync failure |
| VaultRuns.CacheNeverMatters | crates/vaultwarden/src/provider.rs:562-640 | at every point of every run that fixes keys, collections and homes, a get of a unique name through any earlier cache answers what the scan answers now |
| VaultRuns.GetDuringRun | crates/vaultwarden/src/provider.rs:562-640 | a get whose fetches fail or meet different states of a run, while other commands run, answers what a scan answers in one of the states between its start and its end, or, if its own sync fails, what it would answer without a cache |
| CacheFreshness.FreshCacheAgrees | crates/vaultwarden/src/provider.rs:578-640 | with a cache of the current state, cached and uncached gets agree on every ref: homonyms, missing org keys and all errors included |
| CacheFreshness.CachedGetFaithfulIff | crates/vaultwarden/src/provider.rs:753-814 | with a cache of any age, whatever the server did to ciphers, collections and org keys, and though fetches may fail, a get answers as without the cache exactly when no cached entry is answered from, or the collection still resolves and the scan's first match is the cipher answered from and maps alike, or fails alike |
| SyncExact.SyncIs | crates/vaultwarden/src/provider.rs:134-174 | a sync yields the ciphers as sent, for every organization id the key of the first organization of that id that sends one, and, in order, exactly the collections whose organization has a key that opens the name |
| SyncExact.SyncFailsAs | crates/vaultwarden/src/provider.rs:139-159 | a sync fails exactly for the request, the private key, the first organization key that does not open, or the request for the collections, in this order |
| SyncExact.GetIff | crates/vaultwarden/src/provider.rs:586-632 | a get without the cache answers a secret exactly when the sync succeeds, the collection resolves and the first cipher accepted maps to it |
| EncStrings.Type2OpensIffPrinted | crates/vaultwarden/src/crypto/encstring.rs:61-106 | among strings headed `2.`, accepted language and printed language are equal |
| EncStrings.OpensIffPrinted | crates/vaultwarden/src/crypto/encstring.rs:61-141 | the strings that open to `p` under `k` are exactly the prints of `p` under `k` with a prefix denoting type 1 or 2 |
| SyncCache.UnsealsIffSealed | crates/vaultwarden/src/cache.rs:144-171 | a cache file is warm with a payload exactly when it is that payload sealed under this user key; every other file is cold |
| Keyring.OpensIffSealed | crates/core/src/keyring.rs:122-160 | `open` succeeds exactly on sealed lines, and with their trimmed plaintext |
| Webauthn.DecodesIffEncoded | crates/vaultwarden/src/webauthn.rs:190-201 | base64url decodes to `b` exactly for the encoding of `b` followed by any number of `=` |
| SealedItems.MapOfSealedItem | crates/vaultwarden/src/mapping.rs:43-147 | an item sealed field by field maps back to exactly the specified bag, each field under its own name, last writer first in rank, and to the sorted key list, directly or through a per-cipher key |
| SealedItems.MappingFailsIff | crates/vaultwarden/src/mapping.rs:41-137 | mapping fails exactly when the name or some field that was sent, in any section, does not open; only the value of a custom field whose name opens to nothing is not read |
| SessionRuns.KeyringIsFaithful | crates/cli/src/main.rs:585-594 | over every run in which no command is in flight when a login completes, commands overlapping each other as they like, the keyring unseals to a session with the whole user key and the account of the last completed login |
| SessionRuns.KeyringHoldsALogin | crates/cli/src/main.rs:405-419 | over every run, logins and commands overlapping as they like, the keyring unseals, under the passphrase it was sealed with, to a session of some completed login |
| SessionRuns.KeyringIsFaithfulIff | crates/cli/src/main.rs:405-419 | over every run with one passphrase, that session is of the last login exactly when whoever wrote the keyring last was of the same user |
| Login.LoginIsBounded | crates/vaultwarden/src/provider.rs:345-431 | whatever the server answers, one login makes at most two token calls and one ceremony, in one of six call patterns |
| Login.AsksForFactorIff | crates/vaultwarden/src/provider.rs:380-431 | a login asks for a factor exactly when prelogin was challenged, or it carried none and its grant was challenged |
| Login.LoginSessionIs | crates/vaultwarden/src/provider.rs:345-447 | a session holds the tokens and lifetime of the last grant's reply and the user key that reply's protected key opens to under the master key of password, account and prelogin reply |
| Login.LoginFailsAs | crates/vaultwarden/src/provider.rs:345-447 | what a failed login reports is decided by its last call and the reply to it |
| Login.CliLoginIsBounded | crates/cli/src/main.rs:335-376 | the login command makes at most three token calls and one ceremony |
| Ops.CommandsAreDisciplined | crates/cli/src/ops.rs:60-206 | get, both lists and export keep that discipline against every provider |
| Ops.ExportAnswers | crates/cli/src/ops.rs:60-95 | an export answers the secrets of the first listed namespace whose name folds to the one asked for, as the provider gave them in the last attempt under the returned session; other failures pass through unchanged |
| Ops.GetAnswers | crates/cli/src/ops.rs:131-167 | a get answers the named field, or the first non-empty of password, notes, private_key and number, of the secret the last attempt was answered |
| Ops.ListAnswers | crates/cli/src/ops.rs:171-206 | a list answers the names of the namespaces, or of the items in the first namespace of that name, in the provider's order |
| Views.ExportedTextIsGettableIff | crates/core/src/reference.rs:65-94 | the printed ref gets the exported secret and asks for the named field exactly when the namespace has no `/` and neither name a `#` |
| EnvExport.ExportEnv | crates/cli/src/main.rs:498-521 | the printed text is exactly the stream of the fields before the first value with NUL, all of them if there is none; the refusal names that field; renames are noted only on success |
| EnvExport.ExportReadsBack | crates/cli/src/main.rs:498-552 | printed keys are distinct, non-empty and in `[A-Z0-9_]`, and the stream reads back as them with the original values |
| SaveLogin.SaveIsOrderly | crates/cli/src/state.rs:69-99 | wherever the process dies, config and keyring are each wholly old or new, and the keyring is new only if the config is |
| SaveLogin.NeverTornIff | crates/cli/src/state.rs:69-70 | no dying process leaves a mixed logged-in state exactly when there was no keyring or one of the two files does not change |
| TwoFactor.OfferedExact | crates/vaultwarden/src/provider.rs:226-274 | no duplicates, exactly the tags of the parsable ids, in the order of first appearance |
| TwoFactor.PickIsDocumentedIff | crates/cli/src/main.rs:157-208 | the choice is the documented strongest factor exactly when the server lists nothing answerable ahead of it |
| Hkdf.HkdfExpand | integration/provision.py:93-102 | the loop yields T(1)‖T(2)‖… cut to `length`, and its counter leaves one byte exactly beyond 255·32 |
| Refs.DisplayParsesIff | crates/core/src/reference.rs:65-94 | a ref survives printing and parsing exactly when its parts are printable and its field explicit |
| SessionRuns.LateResealFaithfulIff | crates/cli/src/main.rs:585-594 | a late reseal leaves the keyring with the last login exactly when the session the command had unsealed has its user key and account |
| LoginOvertaken.OvertakenLoginIsLost | crates/cli/src/main.rs:405-419 | a run of a login, a get that begins, another login and the get's end leaves a session of the first account |
| Base64.DecodeIffEncoded | crates/core/src/keyring.rs:127-138 | decoding succeeds with `b` on the encoding of `b` and on no other string: canonical padding, no stray bits, no foreign characters |
| Base64.EncodeThree | crates/core/src/keyring.rs:127-138 | three bytes become the four base-64 digits of their 24-bit number |
| Base64.EncodeTwo | crates/core/src/keyring.rs:127-138 | two bytes left over become three digits and one `=`, without the `=` in the URL form |
| Base64.EncodeOne | crates/core/src/keyring.rs:127-138 | one byte left over becomes two digits and `==`, without the `==` in the URL form |
| Crypto.EncOfDec | crates/vaultwarden/src/crypto/encstring.rs:135 | a block encryption that can be undone reaches every block, so encrypting a decrypted block gives it back |
| Crypto.CbcOpenIff | crates/vaultwarden/src/crypto/encstring.rs:131-141 | a ciphertext opens to `p` exactly when it is the padded CBC ciphertext of `p` under that key and IV |
| Crypto.PadIs | crates/vaultwarden/src/crypto/encstring.rs:131-141 | the padded text starts with the text, is the next multiple of 16 long, and every byte added says how many were added |
| Crypto.UnpadIsPaddedFrom | crates/vaultwarden/src/crypto/encstring.rs:131-141 | unpadding succeeds with `p` exactly on `p` with 1 to 16 bytes added that each say how many |
| Crypto.CbcChains | crates/vaultwarden/src/crypto/encstring.rs:131-141 | each ciphertext block encrypts its plaintext block exclusive-or'ed with the block before it, or the IV |
| Crypto.XorBitwise | crates/vaultwarden/src/crypto/encstring.rs:131-141 | a bit of an exclusive or is set exactly where the two bytes differ |
| ToySuite.ToyIsValid | crates/vaultwarden/src/crypto/encstring.rs:18 | the assumptions about the external primitives can all be met at once |
| EncStrings.OpenOfPrint | integration/provision.py:105-114 | what the provisioning script prints opens to its plaintext, for every key, IV and plaintext |
| EncStrings.PrintOfOpen | crates/vaultwarden/src/crypto/encstring.rs:61-128 | whatever opens was printed: type prefix and IV can be read off |
| EncStrings.PrintDeterminesPlaintext | integration/provision.py:105-114 | two plaintexts never share a print under one key |
| EncStrings.SectionsOpenAs | crates/vaultwarden/src/crypto/encstring.rs:100-141 | a wrong tag is reported before wrong sizes, and those before wrong padding |
| EncStrings.OtherTypesOpenAs | crates/vaultwarden/src/crypto/encstring.rs:61-106 | a type above 4 is unsupported whatever follows; types 0, 3 and 4 are once their sections decode |
| EncStrings.OrgKeyIff | crates/vaultwarden/src/crypto/encstring.rs:143-175 | an organization's key opens to `k` exactly when it is of type 4 and the private key unwraps what it carries to the two halves of `k` |
| Hkdf.ExpandPrefix | integration/provision.py:93-102 | asking for fewer bytes gives a prefix of asking for more |
| SealedLine.ReadIff | crates/core/src/keyring.rs:123-138 | a line reads as given fields exactly when, trimmed, it is their writing, with a 16-byte IV and a 32-byte tag |
| Keyring.OpenOfSeal | crates/core/src/keyring.rs:85-160 | opening what was sealed gives the plaintext with outer white space removed |
| Keyring.OpenGivesBackIff | crates/core/src/keyring.rs:155-158 | the plaintext survives unchanged exactly when it has no outer white space |
| Keyring.OpenFailsAs | crates/core/src/keyring.rs:122-160 | an unreadable line, a passphrase that derives no key, and everything else that does not open are three errors |
| Keyring.Seal | crates/core/src/keyring.rs:85-118 | the buffer-filling `seal` computes the sealed line and zeroes its plaintext copy |
| SyncCache.UnsealOfSeal | crates/vaultwarden/src/cache.rs:117-171 | unsealing a sealed payload gives it back, for every salt, IV and payload |
| SyncCache.LineIs | crates/vaultwarden/src/cache.rs:117-142 | the file is `crc1`, salt, IV, ciphertext and the tag over label, salt, IV and ciphertext |
| SyncCache.LabelIs | crates/vaultwarden/src/cache.rs:96-115 | the label is its ASCII text |
| SyncCache.Seal | crates/vaultwarden/src/cache.rs:117-142 | the authenticated buffer built piece by piece is label, salt, IV, ciphertext under the derived keys |
| Provider.ReadWrittenCache | crates/vaultwarden/src/cache.rs:190-199 | a cache that was written is read back whole |
| Provider.ReadCacheIff | crates/vaultwarden/src/cache.rs:190-199 | the file reads as a cache exactly when it is a text that reads as it, sealed under this user key |
| Webauthn.SignedChallengeIsServed | crates/vaultwarden/src/webauthn.rs:475-486 | the clientDataJSON text around the server's own challenge without padding; there is none exactly when that is no base64url |
| Webauthn.AllowListIsServed | crates/vaultwarden/src/webauthn.rs:451-473 | the credential ids of a request are the served ones, in order, padding aside |
| Webauthn.AllowListFailsIff | crates/vaultwarden/src/webauthn.rs:457-472 | there is no request exactly when some credential id does not decode |
| Mapping.MapCipher | crates/vaultwarden/src/mapping.rs:27-147 | the loops insert every present field in section order and stop at the first failure |
| SealedItems.EffectiveKeyIsOwn | crates/vaultwarden/src/provider.rs:938-949 | a cipher key sealed under the container key is the one used; without one the container key is |
| SealedItems.DecIff | crates/vaultwarden/src/provider.rs:177-184 | an empty text reads as empty, and another as what it opens to |
| SealedItems.EffectiveKeyIff | crates/vaultwarden/src/provider.rs:938-949 | the key of a cipher is the container key when it carries none, else exactly the one its field opens to, with no fallback |
| SealedItems.PutAllLastWriter | crates/vaultwarden/src/mapping.rs:35 | the bag holds exactly the keys written, each with the value written last |
| SealedItems.UnreadableNotesFail | crates/vaultwarden/src/mapping.rs:41-68 | notes that are no EncString fail the whole item, whatever else opens |
| SealedItems.MappedNamesNonEmpty | crates/vaultwarden/src/mapping.rs:132-136 | no mapped field has an empty name |
| Sorting.SortedKeys | crates/core/src/model.rs:39-40 | the keys of a bag, each once, strictly ascending |
| Sorting.LexLeIff | crates/core/src/model.rs:39-40 | the order is by code point: a prefix comes first, else the first difference decides |
| TwoFactor.DecodeProviders | crates/vaultwarden/src/provider.rs:231-274 | the loops over both casings of the array and map forms give the tags of the ids named, first seen first |
| TwoFactor.NamedIdsAre | crates/vaultwarden/src/provider.rs:231-274 | the ids named are those of the array form and of the map form under either casing, numbers or strings that spell one |
| TwoFactor.TagToWireInverts | crates/vaultwarden/src/provider.rs:211-224 | the wire id comes back from its tag exactly for ids up to 255 |
| TwoFactor.TagToWireIff | crates/vaultwarden/src/provider.rs:211-224 | the tags with a wire id are the three names and `unknown(n)` for a spelling of a byte |
| TwoFactor.PickIs | crates/cli/src/main.rs:157-208 | a preference is taken or refused, never replaced; without one the choice was offered and can be answered, and fails exactly when nothing can |
| Api.ChallengeTextIff | crates/vaultwarden/src/api.rs:211-216 | a challenge is a 400 whose body contains the text anywhere |
| Api.SuccessIff | crates/vaultwarden/src/api.rs:202-224 | a reply is a success exactly when it is a 2xx whose body decodes |
| Api.FailureIs | crates/vaultwarden/src/provider.rs:190-209 | which error each status, a lost reply and an unreadable body become |
| Sessions.OpenSessionIff | crates/vaultwarden/src/provider.rs:899-916 | a command starts exactly with a handle that reads as a session whose key text is the base64 of a whole user key |
| Sessions.OpenSessionFailsAs | crates/vaultwarden/src/provider.rs:899-916 | a corrupt handle, a key text that is no base64 and one of the wrong length are three errors |
| TwoFactor.ServerOrderBeatsDocumentedOrder | crates/cli/src/main.rs:197-200 | a server that lists totp before webauthn gets totp |
| Login.KeyLoginStartsBare | crates/vaultwarden/src/provider.rs:367-376 | a login that selects the security key sends its first grant without a factor |
| Login.StretchedIs | crates/vaultwarden/src/crypto/kdf.rs:108-117 | each half of the stretched key is one HMAC under the master key over its label and the counter 1 |
| Login.UnwrapIff | crates/vaultwarden/src/provider.rs:293-302 | the user key is exactly what the protected key opens to under the stretched master key |
| Login.FirstGrantCarries | crates/vaultwarden/src/provider.rs:367-376 | the first grant carries the factor as given, a security key that can be asked aside |
| Login.OthersAreNotResent | crates/vaultwarden/src/provider.rs:401-419 | only codes and answerable security keys are sent again after a challenge |
| Login.KeyLoginSends | crates/vaultwarden/src/provider.rs:649-700 | a security key is answered with the token of the ceremony on the challenge that came back |
| Login.CliLoginIff | crates/cli/src/main.rs:335-376 | the command logs in exactly when the bare login does, or was asked for a factor that could be chosen and the login with it succeeds |
| Login.ChallengedCodeIsResent | crates/vaultwarden/src/provider.rs:345-419 | every login with a code factor: after a prelogin that gives a master key the code is granted with once, and once more unchanged exactly when that was challenged |
| Login.ProtectedKeyUnwraps | crates/vaultwarden/src/provider.rs:293-302 | the user key protected at registration is the one a login unwraps |
| Login.LoginSession | crates/vaultwarden/src/provider.rs:432-447 | the session names the account and holds a whole user key |
| Ops.RetryIsDisciplined | crates/cli/src/ops.rs:45-56 | at most two refreshes, all of the starting session, two attempts, no `AuthExpired`, and the session of the successful attempt is returned |
| Ops.RetryAnswers | crates/cli/src/ops.rs:45-56 | a success is what the last attempt was answered; a failure is that of the last attempt, unchanged, or the hint when the session could not be renewed or was refused again; only a refused attempt is repeated |
| Ops.RenewedEarlyIff | crates/cli/src/ops.rs:35-56 | a session is renewed beforehand exactly when it expires within 300 seconds, and a failing renewal keeps it |
| Ops.GetFailsAs | crates/cli/src/ops.rs:131-167 | a get fails as its attempts do, or only because no such field is there |
| SessionRuns.ChainKeeps | crates/vaultwarden/src/provider.rs:321-339 | every chain of refreshes keeps user key and account and never loses a refresh token |
| SessionRuns.RefreshIff | crates/vaultwarden/src/provider.rs:321-339 | a refresh brings the reply's access token, its refresh token or else the old one, and its lifetime, and keeps key and account |
| SessionRuns.RefreshExpiredIff | crates/vaultwarden/src/provider.rs:321-339 | a refresh reports the session expired exactly without a refresh token or on a 401 |
| SessionRuns.CommandKeeps | crates/cli/src/ops.rs:131-167 | the session any command returns keeps user key, account and refresh token |
| SaveLogin.FileSystem.SaveLogin | crates/cli/src/state.rs:71-99 | the disk after `save_login` at every stopping point: config first and not synced, keyring last and synced |
| SaveLogin.FileSystem.Replace | crates/core/src/keyring.rs:208-228 | the disk after a temp write, synced or not, and a rename, at every stopping point |
| SaveLogin.KeyringIsWhole | crates/core/src/keyring.rs:193-229 | the keyring is wholly old or wholly new after every crash, power losses included, and never left unsynced |
| SaveLogin.NoLeftovers | crates/cli/src/state.rs:84-99 | a completed save leaves no temporary file |
| SaveLogin.ConfigIsWholeIff | crates/cli/src/state.rs:84-86 | the config is found whole, new or old, exactly when the power stayed on or enough of it had reached the disk |
| SaveLogin.FirstLoginIsWholeIff | crates/cli/src/state.rs:64-86 | from an empty state, logged in means a completed save with the new keyring, and the new config unless the power went before it reached the disk |
| SaveLogin.PowerLossEmptiesConfig | crates/cli/src/state.rs:69-86 | a power loss after a completed first save can leave a logged-in state with an empty config |
| Provider.ScanCiphers | crates/vaultwarden/src/provider.rs:596-640 | the scan loop with its failure counter computes the scan outcome |
| Provider.IndexCiphers | crates/vaultwarden/src/provider.rs:853-869 | the index holds, in sync order, the ciphers whose key and name open |
| Provider.IndexKeys | crates/vaultwarden/src/provider.rs:870-880 | every org key is stored as the base64 of its 64 bytes |
| Provider.FilterIndex | crates/vaultwarden/src/provider.rs:767-777 | candidates are the index entries of that name and collection, in order |
| Provider.TryCandidates | crates/vaultwarden/src/provider.rs:778-813 | one fetch a candidate: failures and other names move on, keys that do not open miss, a matching name answers |
| Provider.CollectMetas | crates/vaultwarden/src/provider.rs:490-513 | a listing is exactly the metadata of the exported secrets, in the same order |
| Provider.CollectSecrets | crates/vaultwarden/src/provider.rs:535-557 | the export loop collects the members that open and map |
| Provider.VaultClient.GetSecret | crates/vaultwarden/src/provider.rs:562-640 | the answer of the cached path or of the scan, and a rewritten cache file only after a successful scan; `FileRuns` draws the theorems |
| Provider.VaultClient.ListSecrets | crates/vaultwarden/src/provider.rs:472-516 | metadata of the exported secrets, and a cache written from the same sync |
| Provider.VaultClient.ExportSecrets | crates/vaultwarden/src/provider.rs:518-560 | the members of the namespace, and a cache written from the same sync |
| Provider.VaultClient.WriteCache | crates/vaultwarden/src/provider.rs:834-892 | the file becomes the sealed index of this sync, or stays when the write fails |
| SyncExact.OrgKeysFailIff | crates/vaultwarden/src/provider.rs:144-151 | the organization keys fail exactly when some non-empty one does not open, and for the first one's reason |
| SyncExact.FoundKeyIff | crates/vaultwarden/src/provider.rs:144-163 | the key found for an id is that of the first organization of that id with a key |
| SyncExact.CollectionsAre | crates/vaultwarden/src/provider.rs:152-169 | the collections are, in order, exactly the rows whose organization has a key that opens the name |
| SyncExact.ResolveIff | crates/vaultwarden/src/mapping.rs:152-160 | `personal` is the personal vault; else the first collection of that name or id, ASCII case aside |
| SyncExact.CipherKeyIff | crates/vaultwarden/src/provider.rs:918-949 | a cipher opens under its organization's key when the sync has one, else the user key; its own key must open under that |
| SyncExact.AcceptsIff | crates/vaultwarden/src/provider.rs:597-624 | the ciphers a scan stops at, by membership, key and name |
| SyncExact.GetFailsAs | crates/vaultwarden/src/provider.rs:586-640 | no collection; a match that does not map; no match, with keys that did not unwrap reported first |
| SyncExact.NamespacesAre | crates/vaultwarden/src/provider.rs:450-470 | every collection is a namespace, in order, and the personal vault is the last |
| SyncExact.NamespaceSecretsIs | crates/vaultwarden/src/provider.rs:472-560 | a namespace is looked up by id in today's collections; one that is gone is reported |
| CacheAgreement.ScanAtFirst | crates/vaultwarden/src/provider.rs:597-632 | the scan answers with the first cipher that belongs, opens and matches |
| CacheAgreement.ScanMissingIff | crates/vaultwarden/src/provider.rs:633-639 | the scan finds nothing exactly when it accepts no cipher, and then counts the keys that did not unwrap |
| CacheAgreement.WarmHit | crates/vaultwarden/src/provider.rs:778-812 | every cached answer is the mapping of a fetched cipher whose name matches under its key |
| CacheAgreement.WarmHitIsScan | crates/vaultwarden/src/provider.rs:753-814 | with every fetch failing or meeting another server state, a cached answer is the scan's answer in one of the states seen |
| CacheAgreement.StaleCacheAgrees | crates/vaultwarden/src/provider.rs:562-640 | a cache of any age whose entries' homes still hold makes no difference to a get, though fetches may fail |
| CacheAgreement.CachedOrgKeyIff | crates/vaultwarden/src/cache.rs:84-91 | the cached key of an organization is that of its first entry, if it is the base64 of a whole key |
| CacheFreshness.FreshCacheHits | crates/vaultwarden/src/provider.rs:753-814 | a cache of the current state answers without a sync for personal ciphers and those whose organization's key is known |
| CacheFreshness.WarmAnswerIsAcceptable | crates/vaultwarden/src/provider.rs:778-813 | with fetches failing at will, whatever the cached path answers, secret or field failure, is what a cipher the scan accepts maps to |
| CacheFreshness.AgreesUnderSameKeys | crates/vaultwarden/src/provider.rs:816-830 | while the org keys are those of the cache, agreement is that the scan's first match is the cipher answered from, or fails alike |
| CacheFreshness.MovedItemIsServedStale | openspec/changes/archive/2026-09-09-add-sync-cache/proposal.md:57-63 | an item moved after the cache was written is still got under its old collection, where a get without the cache finds nothing |
| CacheFreshness.MovedItemFailsStale | crates/vaultwarden/src/provider.rs:810-813 | a moved item with unreadable notes is reported as a failure, where a get without the cache finds nothing |
| CacheFreshness.RenamedCollectionIsServedStale | crates/vaultwarden/src/provider.rs:767-811 | an item of a renamed collection is still got under the old name, where a get without the cache finds no collection |
| CacheFreshness.LostOrgKeyIsServedStale | crates/vaultwarden/src/provider.rs:144-170 | with the organization's key sent empty its item is still got under the cached key, where a get without the cache has lost the collection |
| VaultRuns.StepKeepsInvariant | crates/vaultwarden/src/provider.rs:834-892 | server mutations, gets, listings, exports, late writes and cache deletion all keep cache and server describing the same homes |
| FileRuns.StepRefines | crates/vaultwarden/src/cache.rs:180-226 | every step over the sealed file, commands with failing writes, late writes and spoilt files included, is a step over what the client reads in it |
| FileRuns.FileInvariant | crates/vaultwarden/src/cache.rs:180-226 | at every point of every run the file reads as nothing or as a cache of the run's homes, keys and collections |
| Views.SameCollection | crates/vaultwarden/src/mapping.rs:152-160 | with clear names, a listing's namespace and a get's collection segment resolve alike |
| Views.MembersExact | crates/vaultwarden/src/provider.rs:518-560 | the exported secrets are exactly those of the ciphers that belong and open |
| Views.ExportedIsGettableIff | crates/vaultwarden/src/provider.rs:563-640 | with clear collection names and a unique item name, a get of `namespace/name` answers an exported secret exactly when the namespace has no `/` |
| Views.NestedCollectionIsUnreachable | crates/vaultwarden/src/provider.rs:567-588 | the item of a collection `P/C` is exported, but a get of it looks for a collection `P` |
| Views.PersonalCollectionIsShadowed | crates/vaultwarden/src/provider.rs:563-640 | the item of a collection called `personal` is exported, but a get of it looks in the personal vault |
| EnvExport.MangleEnvKey | crates/cli/src/main.rs:533-547 | the search ends within as many rounds as keys are taken, at the least free suffix |
| EnvExport.BaseIs | crates/cli/src/main.rs:533-538 | a base has an upper-case letter for every ASCII letter, digits as they are and underscores for the rest |
| EnvExport.BaseOfEnvName | crates/cli/src/main.rs:533-538 | a name made of upper-case letters, digits and underscores is its own base |
| EnvExport.BaseFolds | crates/cli/src/main.rs:533-538 | names that differ only in ASCII case have one base |
| EnvExport.RepeatedBase | crates/cli/src/main.rs:539-546 | the first entry of a base keeps it, and the ones after it get `__1`, `__2`, and so on |
| EnvExport.KeysDetermined | crates/cli/src/main.rs:499-516 | giving every name its least free candidate in order is possible in exactly one way, and it is the export's |
| EnvExport.EscapeIsOnePass | crates/cli/src/main.rs:549-552 | the two replacement passes are one map over the characters |
| EnvExport.UnescapesIffEscaped | crates/cli/src/main.rs:549-552 | a line reads as `v` exactly when it is the escape of `v`, and no escape contains a newline |
| EnvExport.StreamParses | crates/cli/src/main.rs:515 | splitting at newlines, then at the first `=`, then unescaping recovers keys and values in order |
| EnvExport.ExportField | crates/cli/src/main.rs:503-515 | one field adds its key, its line and, when the key is not its name, a note, unless its value has NUL |
| EnvExport.ExportFields | crates/cli/src/main.rs:503-516 | one secret's fields in key order: the taken keys, the text and the notes it adds, and a stop at the first value with NUL, naming that field |
| EnvExport.MembersAreNamed | crates/vaultwarden/src/mapping.rs:132-136 | exported secrets have no field without a name |
| Refs.ReparseOfDisplay | crates/core/src/reference.rs:65-94 | reparsing a printed ref keeps scheme, locus and field, marks the field explicit, and prints the same again |
| Refs.ParseIff | crates/core/src/reference.rs:65-87 | a text is a ref exactly when it is a known scheme in any case, `://`, a locus without `#`, and then `#` and a field or nothing, which means the password |
| Refs.ParseFailsAs | crates/core/src/reference.rs:65-87 | the four errors, the first that applies |
| Text.TrimIff | crates/core/src/keyring.rs:155-158 | what trimming leaves has no outer white space, and only white space was taken off |
| Text.WhiteSpaceIs | crates/core/src/keyring.rs:155-158 | the white space characters, one by one |
| Text.EqFoldIff | crates/vaultwarden/src/mapping.rs:152-160 | names are equal when every two letters are, or are the two cases of one ASCII letter |
| Text.SplitOnceFirst | crates/vaultwarden/src/provider.rs:567 | a split is at the first place where the pattern occurs |
| Text.ParsesIff | crates/vaultwarden/src/crypto/encstring.rs:61-70 | the spellings of a number are its decimal digits after any zeros and at most one plus sign |

## Left out

- HTTP transport, headers and TLS: replies are arguments; only their classification is modelled.
- AES, HMAC, SHA, Argon2id, PBKDF2 and RSA themselves, and `serde_json`: external libraries, see "What is assumed".
- KDF parameter decoding and master-key derivation: one uninterpreted function of password, account and the prelogin reply.
- CTAP2 ceremony, its transports, PIN prompts and error tables, and the decoding of the provider-7 challenge: one arbitrary step with three kinds of failure.
- TTY prompts, argument parsing, tracing, file modes, directory creation and `ssh-add`: a failure there stops a command before or between the file operations that are modelled.
- JSON export: insertion into one object, where a later field of the same name replaces an earlier one.
- `u32`/`u64`/`i32` widths other than the parsing limits and the saturating expiry margin: the suffix counter is bounded by the number of taken keys, not by its 32-bit type.
- VaultRuns.CacheNeverMatters: moves, collection renames and changed organization keys are not among the mutations, because the property is false for them; `CacheFreshness.CachedGetFaithfulIff` covers every state of the server.
- SessionRuns.KeyringIsFaithfulIff: commands run under the passphrase the keyring was sealed with, and the condition is for one passphrase, because an uninterpreted HMAC does not rule out that another passphrase opens the line.
- Views.ExportedIsGettableIff: of several items of one name a get answers the first; collections called `personal`, or like another's id, are excluded, because a get then resolves to another collection.
- Error texts: failures keep their kind and the data the code puts in them, not their wording.
- The Hermes plugin, benches, debug examples and the live harness, apart from `hkdf_expand` and `enc_string_type2`.
