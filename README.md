# Airport check-in: seat allocation and registration in Dafny

This project models the check-in core of the `flights` Django application of
Lileck/airport-reg. An agent opens a flight's check-in page. The page shows
the flight's passengers who have no boarding pass yet and the list of free
seats. The agent then registers an existing passenger or creates and
registers a new one, each on a chosen seat. A registration can be cancelled
later. The public pages list flights, search them by city, and show a flight
with one line per passenger.

Layout, one module per file:

- `wrappers.dfy`, module `Wrappers`: the `Option` type used for nullable columns and failed lookups.
- `text.dfy`, module `Text`: ASCII case folding and substring search (Django's `icontains`), and decimal rendering of integers (Python's `str(int)` inside f-strings) with its parser.
- `sequences.dfy`, module `Sequences`: an order-preserving `Filter`, which is the shape of every list comprehension and queryset filter here. Also subsequence, distinctness and counting facts about it.
- `models.dfy`, module `Models`: the `Flight`, `Passenger`, `CheckInAgent` and `BoardingPass` records of `flights/models.py`. This covers their status enumerations, field defaults, the flight-number and boarding-pass-number length limits, and `__str__`/`get_full_name` builders.
- `seats.dfy`, module `Seats`: the fixed row-major list of 180 seat labels `1A`..`30F`, Python's slice `all_seats[:capacity]` (negative stops included), and the free-seat comprehension.
- `checkin.dfy`, module `CheckIn`: the store, the check-in page queries and the two state-changing views. The store is the value `Db` (flights, passengers and boarding passes in primary-key order, plus the next keys). `CheckInStep` and `CancelStep` specify `flight_checkin`'s POST branches and `cancel_registration` as functions on `Db`. The class `Store` holds the same tables as fields that its methods `CheckIn` and `CancelRegistration` update in place; each method is proved to produce exactly the state and outcome of the corresponding step function. `Consistent` is the store invariant. It says keys are distinct and increasing, references resolve, boarding-pass numbers are unique, and at most one boarding pass exists per (flight, seat). It is proved to be kept by every step and by any sequence of requests.
- `views.dfy`, module `Views`: `flight_list`, `search_flights`, `flight_detail` (a loop building one entry per passenger) and the `available_seats or 180` fallback of the unrouted `flight_checkin` variant in `flights/views.py`.

Inputs from outside the program are parameters of the model:

- the request method (`isPost`) and the submitted form fields;
- the agent's key;
- the four-digit random suffix of a boarding-pass number, a `suffix` in 1000..9999.

An HTTP 404 from `get_object_or_404` becomes an outcome value (`FlightNotFound`, `PassengerNotFound`, `PassNotFound`). The unique constraint on `boarding_pass_number` becomes the outcome `NumberCollision`, in which the store keeps whatever was written before the failing insert.

Points where the code behaves differently from what its field names and comments suggest:

- `capacity` is a plain `IntegerField`, so any integer is allowed. The free-seat list slices `all_seats[:capacity]` with Python's rules, including zero and negative values.
- Every boarding pass of the flight holds its seat, whatever its status.
- Cancellation deletes the boarding pass. It does not move the pass to the `cancelled` status.
- The chosen seat is not checked against the free-seat list. Any non-empty string is accepted when no pass of the flight names it.
- `flight.number` may hold 10 characters, which gives a 16-character generated number. That is longer than the 15 characters declared for `boarding_pass_number`. The model stores it all the same, as SQLite does (see `CheckIn.PassNumberLength`).

The database backend is assumed to be SQLite, Django's default. Its `LIKE`, which `icontains` becomes, folds the case of ASCII letters only, so `Text.Lower` folds exactly those.

## Model

| member | source | states |
|---|---|---|
| Text.IContainsIgnoresCase | flights/views.py:68 | `icontains` ignores ASCII case: folding the text or the search string beforehand does not change whether it matches. |
| Text.LowerIdempotent | flights/views.py:68 | Folding the case twice gives the same text as folding it once. |
| Text.ContainsAt | flights/views.py:68 | The substring test holds exactly when the needle occurs at some index of the text. |
| Text.ParseDecimalString | flights/views_checkin.py:57 | The decimal text of a row number reads back as that number. |
| Text.DecimalStringInjective | flights/views_checkin.py:57 | Different numbers render to different decimal texts. |
| Text.DecimalLength | flights/views_checkin.py:81 | A number below 10000 renders to 1 to 4 digits, and to exactly 4 digits from 1000 on. |
| Models.ParseFlightStatus | flights/models.py:5-11 | A stored flight status code parses to the unique status with that code; exactly the five codes parse. |
| Models.FlightLabel | flights/models.py:27-28 | `Flight.__str__` is the number, ": ", the departure city, " → " and the destination city, each at its fixed place, with a NULL city printed as "None". |
| Models.FullName | flights/models.py:42-46 | `__str__` and `get_full_name` give the first name, one space and the last name. |
| Models.FullNameSplits | flights/models.py:42-46 | A first name without spaces is recovered, together with the last name, by splitting the full name at its first space. |
| Models.AgentLabel | flights/models.py:53-54 | The agent label is "Агент ", the user name, " (", the workstation and ")", each at its fixed place. |
| Models.ParsePassStatus | flights/models.py:65-69 | A stored boarding-pass status code parses to the unique status with that code; exactly the three codes parse. |
| Models.BoardingPassLabel | flights/models.py:75-76 | The boarding-pass label is its number, " - ", then the passenger's full name. |
| Seats.SeatsFromAt | flights/views_checkin.py:57 | The seats from a row on are 6 per row, row-major, the seat at offset i being row + i/6 with column i%6. |
| Seats.AllSeatsLength | flights/views_checkin.py:57 | The generated list has exactly 180 labels. |
| Seats.AllSeatsLayout | flights/views_checkin.py:57 | Label i is row i/6+1 followed by column letter i%6 of A..F. |
| Seats.SeatLabelInjective | flights/views_checkin.py:57 | Two labels are equal only for the same row and column. |
| Seats.SeatAtInjective | flights/views_checkin.py:57 | Two positions of the list carry the same label only if they are the same position. |
| Seats.AllSeatsDistinct | flights/views_checkin.py:57 | The generated list has no duplicate label. |
| Seats.AllSeatsMembers | flights/views_checkin.py:57 | A string is in the list exactly when it is a row 1..30 followed by a letter A..F. |
| Seats.AllSeatsNonEmpty | flights/views.py:48 | No generated label is the empty string. |
| Seats.SlicePrefix | flights/views_checkin.py:59 | `s[:stop]` is a prefix of s of length min(stop, len) for stop >= 0 and of length len - min(-stop, len) for stop < 0. |
| Seats.AvailableSeats | flights/views_checkin.py:58-59 | The free seats are an order-preserving subsequence of `all_seats[:capacity]` without duplicates. They hold every seat of that prefix that is not taken and no taken seat. |
| Seats.AvailableSeatsCountAll | flights/views_checkin.py:59 | The number of free seats is the number of sellable seats minus the number of distinct taken seats that are sellable, for any taken list. |
| Seats.OutsideSeatFreesNothing | flights/views_checkin.py:59 | Capacity 3 with only "2A" taken, a seat the POST accepts but the capacity does not sell, still leaves 3 free seats. |
| Seats.AvailableSeatsCount | flights/views_checkin.py:59 | When all taken seats are sellable, the number of free seats is the number of sellable seats minus the number of distinct taken seats. |
| Seats.DefaultCapacityAllFree | flights/views_checkin.py:59 | With capacity 180 and nothing taken, the free list is the whole seat list in order. |
| Seats.FirstRowLabels | flights/views_checkin.py:57 | The list starts 1A, 1B, 1C. |
| Seats.SellableThree | flights/views_checkin.py:59 | A capacity of 3 sells 1A, 1B, 1C. |
| Seats.SmallCapacityExample | flights/views_checkin.py:58-59 | Capacity 3 with 1A and 1C taken leaves exactly 1B. |
| CheckIn.FindFlight | flights/views_checkin.py:46 | The lookup returns a flight with that key, or nothing exactly when no flight has it. |
| CheckIn.FindPassenger | flights/views_checkin.py:74 | The lookup returns a passenger with that key, or nothing exactly when no passenger has it (any flight). |
| CheckIn.FindPassIndex | flights/views_checkin.py:165 | The lookup returns the position of a pass with that key, or nothing exactly when none has it. |
| CheckIn.TakenSeats | flights/views_checkin.py:54-58 | A seat is taken exactly when some boarding pass of the flight names it, whatever the pass status. |
| CheckIn.FlightSeats | flights/views_checkin.py:57-59 | A seat is offered exactly when it is in the flight's capacity prefix and no pass of the flight names it. |
| CheckIn.NewFlightAllSeatsFree | flights/models.py:18-20 | A flight created with the default capacity and without passes offers all 180 seats in order. |
| CheckIn.AvailablePassengers | flights/views_checkin.py:50-51 | The list holds exactly the flight's passengers without a boarding pass on the flight, in key order. |
| CheckIn.PassengerLookup | flights/views_checkin.py:141-152 | An empty query lists every passenger. Otherwise a passenger is listed exactly when the first name, last name, passport or flight number contains the query, ignoring case. Key order is kept. |
| CheckIn.EmptyLookupFiltersNothing | flights/views_checkin.py:146 | Applying the lookup filter with an empty query would also keep everyone, so the guard only skips work. |
| CheckIn.PassNumberLength | flights/views_checkin.py:81 | The generated number is 6 characters longer than the flight number. It fits the 15-character column exactly when the flight number has at most 9 characters, so a 10-character flight number gives 16. |
| CheckIn.PassNumberParts | flights/views_checkin.py:81 | The generated number starts with "BP" and the flight number, and the rest reads back as the suffix. A suffix in 1000..9999 makes it exactly 6 characters longer than the flight number. |
| CheckIn.CheckInStep | flights/views_checkin.py:72-125 | Flights never change. Only a registration or a number collision writes. A registration happens only for an existing flight and a seat no pass of the flight held. It appends exactly one pass with the next key, for the flight, status checked_in, on the chosen seat. A collision leaves the passes as they were. The passengers are unchanged, or gain exactly one at the end. |
| CheckIn.CheckInNoWritePaths | flights/views_checkin.py:42-135 | A missing flight gives `FlightNotFound`, a GET shows the page, and an unknown passenger id gives `PassengerNotFound`, each writing nothing. A registration happens only on a POST, and in the existing-passenger branch it is for the passenger the form names. |
| CheckIn.ExistingPassengerRegistered | flights/views_checkin.py:72-90 | With an id and a seat, a known passenger, a free seat and an unused number, one pass is added. It holds the passenger, the flight, the generated number, the seat, the flight's gate and the agent, and nothing else changes. |
| CheckIn.NewPassengerRegistered | flights/views_checkin.py:95-121 | With all four new-passenger fields and a free seat, one passenger is appended with the seat echoed. Then one pass for that passenger is appended. |
| CheckIn.HeldSeatRefused | flights/views_checkin.py:77-99 | When a pass of the flight already names the chosen seat, either branch reports SeatTaken and writes nothing. |
| CheckIn.ExistingBranchFirst | flights/views_checkin.py:72-95 | With an id and a seat present, the new-passenger fields have no effect on the result. |
| CheckIn.IncompleteFormNoWrite | flights/views_checkin.py:72-95 | When neither branch's fields are complete, the store is unchanged and the page is shown again. |
| CheckIn.CollisionLeavesPassenger | flights/views_checkin.py:102-121 | On any store with increasing passenger keys whose passes refer to stored rows: when the generated number is in use, the form's new passenger is appended and stays stored without a pass, and the pass table and its next key are unchanged. |
| CheckIn.RegisteredSeatNoLongerFree | flights/views_checkin.py:83-90 | After a registration the chosen seat is no longer offered for the flight; before it, the seat was offered if it lies in the capacity prefix. |
| CheckIn.RegisteredPassengerLeavesList | flights/views_checkin.py:50-51 | After a registration the passenger no longer appears among the flight's unregistered passengers. |
| CheckIn.AddPassKeepsConsistent | flights/views_checkin.py:83-90 | Appending a pass with the next key, resolvable references, a free seat and an unused number keeps the store consistent. |
| CheckIn.AppendNumbersUnique | flights/models.py:59 | Appending a pass whose number no pass carries keeps boarding-pass numbers unique. |
| CheckIn.AppendSeatsUnique | flights/views_checkin.py:77-90 | Appending a pass whose (flight, seat) no pass holds keeps at most one pass per (flight, seat). |
| CheckIn.AddPassengerKeepsConsistent | flights/views_checkin.py:102-108 | Appending a passenger with the next key on an existing flight keeps the store consistent, and the new passenger can be found. |
| CheckIn.CheckInKeepsConsistent | flights/views_checkin.py:72-125 | Every check-in request keeps the store consistent, in particular at most one pass per (flight, seat). |
| CheckIn.CancelStep | flights/views_checkin.py:163-173 | A pass is removed exactly on POST for an existing pass. Then the pass list is one shorter, is an order-preserving subsequence of the old one and keeps every other pass. Nothing else changes. An unknown key gives `PassNotFound` and a GET on a known pass gives `Kept`, exactly then, and both change nothing. |
| CheckIn.CancelRemovesExactly | flights/views_checkin.py:169 | On a pass table with increasing keys, a confirmed cancellation leaves exactly the passes with a different key, in order. |
| CheckIn.DeletePassKeys | flights/views_checkin.py:169 | Deleting one pass keeps the pass keys increasing and below the next key. |
| CheckIn.DeleteNumbersUnique | flights/views_checkin.py:169 | Deleting one pass keeps boarding-pass numbers unique. |
| CheckIn.DeleteSeatsUnique | flights/views_checkin.py:169 | Deleting one pass keeps at most one pass per (flight, seat). |
| CheckIn.DeletePassKeepsConsistent | flights/views_checkin.py:169 | Deleting one pass keeps the store consistent. |
| CheckIn.DeleteFreesSeat | flights/views_checkin.py:169 | With one pass per (flight, seat), after deleting a pass no remaining pass holds its seat on its flight. |
| CheckIn.CancelKeepsConsistent | flights/views_checkin.py:163-173 | Every cancellation request keeps the store consistent. |
| CheckIn.CancelFreesSeat | flights/views_checkin.py:165-169 | On a consistent store (at most one pass per (flight, seat) among its constraints), after a cancellation the freed seat is offered again exactly when it lies in the flight's capacity prefix. |
| CheckIn.CheckInThenCancel | flights/views_checkin.py:163-173 | On a pass table with increasing keys, registering and then cancelling the new pass restores the pass list and the flight's free seats. |
| CheckIn.LastPassFound | flights/views_checkin.py:165 | A pass appended with a key above every existing key is the one its key finds. |
| CheckIn.RunKeepsConsistent | flights/views_checkin.py:61-173 | Any sequence of check-in and cancellation requests keeps the store consistent, so no (flight, seat) is ever held twice. |
| CheckIn.Store.constructor | flights/models.py:4-76 | A new store holds the given flights and empty passenger and pass tables, and is consistent. |
| CheckIn.Store.CreatePass | flights/views_checkin.py:83-90 | The insert appends the pass built from the flight, passenger, seat, agent and number, and advances the next key. |
| CheckIn.Store.CheckIn | flights/views_checkin.py:61-125 | On any store, updating the tables in place yields exactly the state and outcome of the check-in step; a consistent store stays consistent. |
| CheckIn.Store.CancelRegistration | flights/views_checkin.py:163-173 | On any store, deleting in place yields exactly the state and outcome of the cancellation step; a consistent store stays consistent. |
| Views.FlightListIsOneFilter | flights/views.py:61-73 | The number and status filters compose to one order-preserving filter. A flight is listed exactly when it matches both, and an empty filter value matches all. |
| Views.SearchFlights | flights/views.py:113-123 | An empty city lists all flights. "departure" matches the departure city, any other type the destination city, ignoring case. A NULL city never matches. The result keeps the table order and repeats no flight that the table does not repeat. |
| Views.FirstPass | flights/views.py:91 | Nothing is returned exactly when no pass links the passenger to the flight. Otherwise the result is the earliest such pass in table order. |
| Views.FirstPassSmallestKey | flights/views.py:91 | On a pass table kept in key order, the chosen pass has the smallest key among the passes linking the passenger to the flight. |
| Views.FlightDetail | flights/views.py:83-110 | There is no page exactly when the flight is missing. Otherwise there is one entry per passenger of the flight, in order, with its first pass, registered exactly when some pass exists. The registered count is the flight's number of passes, the free seats are capacity minus that count, and the total is the passenger count. |
| Views.FreeSeatsMatchesList | flights/views.py:99-100 | With capacity 0..180, every pass on a sellable seat and at most one pass per (flight, seat), the free-seat figure equals the length of the check-in page's free-seat list. |
| Views.FreeSeatsCanBeNegative | flights/views.py:100 | The free-seat figure is not clamped: capacity 0 with one pass gives -1. |
| Views.SeatTotal | flights/views.py:46 | A missing or zero total becomes 180; any other total is kept. |
| Views.FallbackSeatsAgree | flights/views.py:46-49 | Dropping empty seat numbers from the taken list changes nothing, so the variant offers the same seats as the check-in page for that total. |

## Left out

- Template rendering, `messages.*`, `redirect`, and the `login_required`/`user_passes_test` decorators are framework input and output. A redirect is modelled as the outcome value of the step.
- `agent_dashboard` in `flights/views_checkin.py` and in `flights/views.py` is not modelled. Both filter on today's date from the clock.
- `start_registration` in `flights/views.py` is not modelled. It calls `redirect`, which the module never imports, so it answers 404 for a missing flight and otherwise fails with a `NameError`; it writes nothing.
- `flight_checkin` in `flights/views.py` reads `flight.available_seats`, a field `Flight` does not declare. Only its seat expression is modelled, with that total as a parameter (`Views.SeatTotal`).
- `flights/admin.py` and `flights/urls.py` (admin registration and URL routing) are not part of this model.
- The random number generator is left out: the suffix is a parameter in 1000..9999.
- The read-then-write race between concurrent requests is left out. Requests are applied one after the other.
- Date and time columns are left out, and so is ordering by `departure_time` and `check_in_time`. Lists keep primary-key order instead.
- Text.Lower: folds ASCII letters only, as SQLite's `LIKE` does. Other database backends that fold Cyrillic letters too are not modelled.
- `max_length` limits are not enforced by the store. Only the flight-number (10) and boarding-pass-number (15) limits are stated, as constants, and the boarding-pass number overflow is a lemma. The other limits (names 50, passport 20, seat 5, gate 10, cities 100, status 20, agent id 20, workstation 50) are not stated.
- A `passenger_id` that is not a number raises an error in the database lookup. The model takes the field as an optional number.
- `CheckIn.Store.constructor`: starts from empty passenger and pass tables rather than from an arbitrary database.
