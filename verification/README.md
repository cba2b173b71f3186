# Verified model of the STM32F4 demo firmware core

A Dafny 4.11 model of the register-level logic of the Datahub embedded demo: the RCC clock
tree and its start-up sequence, the USART baud rate and interrupt enables, the packed
register files of GPIO, EXTI and ADC, interrupt priorities, the FreeRTOS timer, and the lwIP
netbuf cursor. `dafny verify dfyconfig.toml` checks everything.

How it is built:

- `Words.dfy` defines unsigned 32-bit words, the C bit operators on them, and one theory of
  packed fields, packed arrays and single bits that is generic in width, position and slot.
  The other modules instantiate it at their own masks and positions.
- Each driver is a class holding the raw registers. Its methods follow the C statements. A
  contract says which abstract state (register fields, a map from pin or rank to setting, a
  buffer with a cursor) the new register contents decode to, as a function of the old one.
- Properties of whole histories are lemmas over all sequences of abstract steps, including
  steps the hardware takes by itself.
- Build parameters: the `STM32F40_41xxx` branch; `HSE_VALUE`, `HSI_VALUE`,
  `HSE_STARTUP_TIMEOUT` and `configTICK_RATE_HZ` are parameters. The tick counter, ready
  flags, SWS and the memory allocators' answers are inputs that range over all values.
- `assert_param` checks appear as preconditions. C undefined behaviour (division by an M
  field of 0) is an explicit result.

Where the code does less than its comments say, the model keeps the code and states the
exact condition:

- `RCC_GetClocksFreq` and `SystemCoreClockUpdate` use different prescaler tables; they differ
  exactly on AHB codes 4 to 7, which no legal call can program.
- `USART_Init` drops the carry of its own rounding: with 97 to 99 hundredths (94 to 99 with
  OVER8) the divider is a whole mantissa step too small. 15.6 MHz at 1 Mbaud gives BRR = 0.
- `ADC_InjectedChannelConfig` with a rank one above the programmed length overwrites the
  length field; higher ranks write reserved bits.
- `netbuf_alloc` on failure leaves the cursor on the freed chain; `netbuf_chain` onto an
  empty head loses the tail's data and leaks its pbufs.
- `left_ms` multiplies the ticks by the truncated quotient 1000 / HZ. It is the true time left
  only if HZ divides 1000: 600 ticks at 600 Hz give 600 ms, and above 1000 Hz it is always 0.
  Its product overflows at one tick per second above 2147483 ticks, and never at two or more.
- The comments give 25 MHz as the default crystal; the header in this repository defines
  8 MHz, and the start-up constants fit 8 MHz.

## Model

| member | source | states |
|---|---|---|
| Words.GetPut | demo/STM32F4xx_StdPeriph_Driver/src/stm32f4xx_rcc.c:982-999 | a replaced field reads back as written and every non-overlapping field of any width is unchanged |
| Words.ShiftedUpdate | demo/STM32F4xx_StdPeriph_Driver/src/stm32f4xx_gpio.c:222-223 | the idiom clear `mask << pos`, then or `value << pos`, replaces exactly one field, for every width and position |
| Words.SlotsPut | demo/STM32F4xx_StdPeriph_Driver/src/stm32f4xx_adc.c:768-784 | replacing one packed slot is updating one entry of the decoded array, for every slot width and count |
| Words.PackedPut | demo/STM32F4xx_StdPeriph_Driver/src/stm32f4xx_syscfg.c:170-172 | the same for an array spread over several words |
| Words.SlotsDetermineWord | demo/STM32F4xx_StdPeriph_Driver/src/stm32f4xx_gpio.c:222-243 | slots that tile a word determine it |
| ClockTree.Rcc.RCC_DeInit | demo/STM32F4xx_StdPeriph_Driver/src/stm32f4xx_rcc.c:213-241 | all CFGR fields 0, PLL fields at reset, HSI on, HSE, bypass, CSS and the PLLs off, the other PLL, interrupt and prescaler registers at reset |
| ClockTree.Rcc.RCC_PLLConfig | demo/STM32F4xx_StdPeriph_Driver/src/stm32f4xx_rcc.c:462-473 | PLLCFGR decodes to exactly the five arguments, each at its place in the register; no other register changes |
| ClockTree.Rcc.RCC_SYSCLKConfig | demo/STM32F4xx_StdPeriph_Driver/src/stm32f4xx_rcc.c:929-946 | bits 0 and 1 of CFGR become the requested source and every other field stays |
| ClockTree.Rcc.RCC_HCLKConfig | demo/STM32F4xx_StdPeriph_Driver/src/stm32f4xx_rcc.c:982-999 | bits 4 to 7 of CFGR become the requested code and every other field stays |
| ClockTree.Rcc.RCC_PCLK1Config | demo/STM32F4xx_StdPeriph_Driver/src/stm32f4xx_rcc.c:1014-1031 | only PPRE1 changes |
| ClockTree.Rcc.RCC_PCLK2Config | demo/STM32F4xx_StdPeriph_Driver/src/stm32f4xx_rcc.c:1045-1062 | only PPRE2 changes, although the code is given in PPRE1 position |
| ClockTree.Rcc.RCC_MCO1Config | demo/STM32F4xx_StdPeriph_Driver/src/stm32f4xx_rcc.c:696-714 | MCO1 source and prescaler change together, the other ten fields stay |
| ClockTree.Rcc.RCC_MCO2Config | demo/STM32F4xx_StdPeriph_Driver/src/stm32f4xx_rcc.c:734-752 | MCO2 source and prescaler change together, the other ten fields stay |
| ClockTree.Rcc.RCC_RTCCLKConfig | demo/STM32F4xx_StdPeriph_Driver/src/stm32f4xx_rcc.c:1222-1245 | RTCPRE changes exactly for the HSE sources; BDCR gains the source bits |
| ClockTree.Rcc.RCC_I2SCLKConfig | demo/STM32F4xx_StdPeriph_Driver/src/stm32f4xx_rcc.c:1288-1294 | only the I2SSRC bit changes |
| ClockTree.Rcc.RCC_GetClocksFreq | demo/STM32F4xx_StdPeriph_Driver/src/stm32f4xx_rcc.c:1097-1160 | the four frequencies as a function of the decoded fields, with 32-bit wrap and the division by zero explicit; SYSCLK is HSI for SWS 0 and 3 and HSE for SWS 1 |
| ClockTree.Rcc.SystemCoreClockUpdate | demo/STM32_CONF/system_stm32f4xx.c:494-554 | SystemCoreClock as a function of the decoded fields through the other table; undivided it is HSI for SWS 0 and 3 and HSE for SWS 1 |
| ClockTree.ReportsAgreeExactly | demo/STM32F4xx_StdPeriph_Driver/src/stm32f4xx_rcc.c:141 | for every register content the two HCLK reports are equal if and only if HPRE is not 4 to 7 or SYSCLK is 0; they divide by zero on the same contents |
| ClockTree.ReportsAgreeAfterAnyHistory | demo/STM32F4xx_StdPeriph_Driver/src/stm32f4xx_rcc.c:696-1245 | after every sequence of legal calls and hardware SWS moves both report the same HCLK |
| ClockTree.ReportsCanDiffer | demo/STM32_CONF/system_stm32f4xx.c:386 | a register content on which they differ |
| ClockTree.DividersCompose | demo/STM32F4xx_StdPeriph_Driver/src/stm32f4xx_rcc.c:1138-1159 | after every interleaving of calls HCLK, PCLK1 and PCLK2 are SYSCLK divided once by the product of the last dividers asked for, as the header names them |
| ClockTree.FieldsAfterAnyHistory | demo/STM32F4xx_StdPeriph_Driver/src/stm32f4xx_rcc.c:213-1294 | after every history each of the 17 fields of CFGR and PLLCFGR holds the value last asked for, read off the calls alone; calls of another kind leave it |
| ClockTree.ClocksFromReset | demo/STM32F4xx_StdPeriph_Driver/src/stm32f4xx_rcc.c:1106-1136 | after reset and any calls, while the hardware is on an oscillator, both functions report that oscillator over the dividers last asked for |
| ClockTree.ResetRunsOnHsi | demo/STM32F4xx_StdPeriph_Driver/src/stm32f4xx_rcc.c:213-241 | after RCC_DeInit and any calls that leave the switch and the prescalers alone all four clocks and SystemCoreClock are HSI |
| ClockTree.PllRoundTrip | demo/STM32F4xx_StdPeriph_Driver/src/stm32f4xx_rcc.c:1112-1133 | configure then report recovers M, N, P, Q and source; the truncation error bound holds if and only if (source / M) * N fits 32 bits |
| ClockTree.PllProductCanWrap | demo/STM32F4xx_StdPeriph_Driver/src/stm32f4xx_rcc.c:1121 | legal factors that exceed that limit with a 25 MHz crystal |
| Startup.SwitchIsSafe | demo/STM32_CONF/system_stm32f4xx.c:564-664 | for every power-on content and hardware behaviour, at the write selecting the PLL and ever after PLLRDY had been read set, PLLCFGR is M=8 N=336 P=2 Q=7 from HSE, PWREN is set and VOS is scale 1, flash latency is 5 with caches on and the bus prescalers are set |
| Startup.PllReadyWasRead | demo/STM32_CONF/system_stm32f4xx.c:626-631 | the sequence gets past the PLL wait only through a reading with PLLRDY set |
| Startup.HseFailureIsSafe | demo/STM32_CONF/system_stm32f4xx.c:583-592 | if the second look at HSERDY is clear, CFGR and PLLCFGR keep their reset values forever and PLLON is off at every access |
| Startup.HseWait | demo/STM32_CONF/system_stm32f4xx.c:576-581 | after i readings the loop is still active if and only if all were clear and i is below the time-out (a full counter turn for time-out 0) |
| Startup.RCC_WaitForHSEStartUp | demo/STM32F4xx_StdPeriph_Driver/src/stm32f4xx_rcc.c:287-308 | ends at the first set reading or at the time-out, and succeeds exactly when the one further reading is set |
| Startup.CompletesExactly | demo/STM32_CONF/system_stm32f4xx.c:564-652 | the sequence has reached its end if and only if the answers hold an end of the HSE wait, a set second look, a first set PLLRDY and a first SWS on the PLL, in this order: every wait is left at the first suitable reading |
| Startup.StartupCompletes | demo/STM32_CONF/system_stm32f4xx.c:576-652 | liveness: with a crystal seen ready within the time-out and at the next look, and PLLRDY and the switch shown again and again, the end is reached |
| Startup.ReadyHardwareCompletes | demo/STM32_CONF/system_stm32f4xx.c:417-652 | on hardware that is always ready the end is reached at the 21st access and not before |
| Startup.RunKeepsInv | demo/STM32_CONF/system_stm32f4xx.c:417-664 | the inductive invariant of the sequence: contents of CR, CFGR, PLLCFGR, CIR, APB1ENR, PWR and FLASH registers at every access, relative to power-on |
| Startup.StartupWrites | demo/STM32_CONF/system_stm32f4xx.c:425-644 | over every run: HSION set, CSS, bypass and interrupts off, PWREN and VOS set, FLASH_ACR 0x705, each from its write on, HSEON and PLLON exactly from theirs on, and no other bit of CR, APB1ENR and PWR_CR changed |
| Startup.ClocksAfterStartup | demo/STM32_CONF/system_stm32f4xx.c:596-652 | once the switch is confirmed both reports give the PLL output as HCLK, a quarter as PCLK1, a half as PCLK2 |
| Startup.BoardClocks | demo/STM32_CONF/system_stm32f4xx.c:370-372 | 168, 42 and 84 MHz with the 8 MHz crystal, the initial SystemCoreClock |
| Startup.ReportsAgreeFromPowerOn | demo/STM32_CONF/system_stm32f4xx.c:417-456 | through start-up with any hardware and any later call history the two reports agree |
| Usart.BaudSection | demo/STM32F4xx_StdPeriph_Driver/src/stm32f4xx_usart.c:323-350 | the BRR arithmetic with shifts, masks and truncation equals mantissa and masked fraction as numbers |
| Usart.BaudRateIsExact | demo/STM32F4xx_StdPeriph_Driver/src/stm32f4xx_usart.c:323-350 | in both oversampling modes 100*b*divider lies between 100 f - 65 b (57 b) and 100 f + 50 b if and only if 25 f fits 32 bits, the mantissa fits 12 bits and the rounding does not carry |
| Usart.LostCarry | demo/STM32F4xx_StdPeriph_Driver/src/stm32f4xx_usart.c:339-347 | the carry thresholds 97 and 94, and that the divider is then exactly 16 (8) below the rounded value |
| Usart.LostCarryExample | demo/STM32F4xx_StdPeriph_Driver/src/stm32f4xx_usart.c:346 | a clock and baud rate whose BRR is 0 instead of 16 |
| Usart.BaudRateAfterAnyClockHistory | demo/STM32F4xx_StdPeriph_Driver/src/stm32f4xx_usart.c:312-350 | after any clock configuration history the divider is accurate against SYSCLK and the last dividers asked for |
| Usart.Peripheral.USART_Init | demo/STM32F4xx_StdPeriph_Driver/src/stm32f4xx_usart.c:246-351 | mode, parity, word length, stop bits and flow control become the arguments and every other bit of CR1 to CR3 stays; BRR from APB2 for USART1 and USART6, from APB1 for the others |
| Usart.Peripheral.USART_OverSampling8Cmd | demo/STM32F4xx_StdPeriph_Driver/src/stm32f4xx_usart.c:474-490 | switches between 8 and 16 samples |
| Usart.Peripheral.USART_ITConfig | demo/STM32F4xx_StdPeriph_Driver/src/stm32f4xx_usart.c:1231-1275 | enables or disables exactly the interrupt its code decodes to |
| Usart.Peripheral.USART_GetITStatus | demo/STM32F4xx_StdPeriph_Driver/src/stm32f4xx_usart.c:1378-1424 | SET if and only if the source's interrupt is enabled and its SR flag is up |
| Usart.EnabledAfterAnyHistory | demo/STM32F4xx_StdPeriph_Driver/src/stm32f4xx_usart.c:246-1275 | after every history of driver calls the enabled set is the one the USART_ITConfig calls alone ask for |
| Usart.OthersKeepBits | demo/STM32F4xx_StdPeriph_Driver/src/stm32f4xx_usart.c:246-1118 | none of the seventeen other control register writers changes an enable bit |
| Usart.WritersWriteTheirField | demo/STM32F4xx_StdPeriph_Driver/src/stm32f4xx_usart.c:379-1275 | each of the seventeen control register writers other than USART_Init gives the field it is for the requested value and changes nothing else |
| Usart.RegisterBits | demo/STM32F4xx_StdPeriph_Driver/src/stm32f4xx_usart.c:1231-1424 | the enable bits and status flags by their places in the registers |
| Gpio.PortRegisters.GPIO_Init | demo/STM32F4xx_StdPeriph_Driver/src/stm32f4xx_gpio.c:202-247 | the 16-step loop is one simultaneous map update; in register fields: selected pins get mode and pull, with modes 1 and 2 also speed and output type, with modes 0 and 3 these stay; unselected pins stay |
| Gpio.DisjointCallsCommute | demo/STM32F4xx_StdPeriph_Driver/src/stm32f4xx_gpio.c:213-246 | calls on disjoint pin sets leave the same four registers in either order |
| Gpio.DecodeIsInjective | demo/STM32F4xx_StdPeriph_Driver/src/stm32f4xx_gpio.c:222-243 | the decoded settings determine the registers |
| Gpio.LastCallWins | demo/STM32F4xx_StdPeriph_Driver/src/stm32f4xx_gpio.c:213-246 | over every history a pin has the mode and pull of the last call that selects it, and the speed and output type of the last that selects it in a driving mode |
| Gpio.SameLastCallsSameRegisters | demo/STM32F4xx_StdPeriph_Driver/src/stm32f4xx_gpio.c:213-246 | two histories whose last calls on every pin ask for the same leave the same four registers |
| Gpio.PortRegisters.GPIO_PinAFConfig | demo/STM32F4xx_StdPeriph_Driver/src/stm32f4xx_gpio.c:579-593 | the two AFR words are a 16-entry map and one entry is updated, at bits 4 * (pin % 8) of word pin / 8 |
| Gpio.SYSCFG_EXTILineConfig | demo/STM32F4xx_StdPeriph_Driver/src/stm32f4xx_syscfg.c:162-173 | the four EXTICR words are a 16-entry map and one entry is updated, at bits 4 * (line % 4) of word line / 4 |
| Adc.Registers.ADC_Init | demo/STM32F4xx_StdPeriph_Driver/src/stm32f4xx_adc.c:235-297 | SCAN and RES of CR1, CONT, ALIGN, EXTSEL and EXTEN of CR2 and the length field of SQR1 become the arguments; every other field stays |
| Adc.Registers.ADC_RegularChannelConfig | demo/STM32F4xx_StdPeriph_Driver/src/stm32f4xx_adc.c:715-828 | one rank entry and one sample time entry change, at their places in the five registers, and nothing else |
| Adc.Registers.ADC_InjectedChannelConfig | demo/STM32F4xx_StdPeriph_Driver/src/stm32f4xx_adc.c:1190-1244 | for every rank: the sample time entry changes, and with it one slot, or the length field, or nothing visible |
| Adc.Registers.ADC_InjectedSequencerLengthConfig | demo/STM32F4xx_StdPeriph_Driver/src/stm32f4xx_adc.c:1253-1273 | only JL changes |
| Adc.LastWriterWins | demo/STM32F4xx_StdPeriph_Driver/src/stm32f4xx_adc.c:235-1273 | after every history of calls with accepted arguments, injected ranks above the length included, each rank holds its last channel, each channel its last sample time, and L the last length |
| Adc.ProgramRoundTrip | demo/STM32F4xx_StdPeriph_Driver/src/stm32f4xx_adc.c:715-828 | programming a list of up to 16 channels reads back as exactly that list |
| Adc.InjectedAnyOrder | demo/STM32F4xx_StdPeriph_Driver/src/stm32f4xx_adc.c:1229-1273 | after setting length n, writing ranks 1 to n in any order, mixed with any other calls that leave the length, decodes to the intended list and keeps JL = n-1 |
| Adc.LastInjectedWins | demo/STM32F4xx_StdPeriph_Driver/src/stm32f4xx_adc.c:1229-1244 | through any history that leaves the length, every rank up to it holds its last channel |
| Adc.LengthStaysExactly | demo/STM32F4xx_StdPeriph_Driver/src/stm32f4xx_adc.c:1229-1273 | the length stays n through a history if and only if no call sets another length or programs rank n+1 with a channel that does not end in n-1 |
| Adc.InjectedWordEffect | demo/STM32F4xx_StdPeriph_Driver/src/stm32f4xx_adc.c:1230-1243 | the effect of an injected write for every rank: slot, length field, or reserved bits |
| Adc.LengthSurvivesExactly | demo/STM32F4xx_StdPeriph_Driver/src/stm32f4xx_adc.c:1233-1243 | the length field survives if and only if the rank is not length+1 or the channel's low two bits equal JL |
| Adc.LengthLost | demo/STM32F4xx_StdPeriph_Driver/src/stm32f4xx_adc.c:1235-1241 | a call that turns length 1 into length 4 |
| Nvic.DecodeEncode | demo/CORE/core_cm4.h:1592-1631 | for every group and up to 8 priority bits, decoding the code of an in-range pair gives the pair, and the code fits the bits |
| Nvic.EncodeDecode | demo/CORE/core_cm4.h:1592-1631 | every code decodes to an in-range pair that encodes to it |
| Nvic.CodeOrder | demo/STM32F4xx_StdPeriph_Driver/src/misc.c:48-51 | numeric order of codes is lexicographic order of (preemption, subpriority) |
| Nvic.CodeValue | demo/CORE/core_cm4.h:1592-1605 | the code of any pair: min(7 - group, bits) preemption bits above the remaining subpriority bits, each part reduced to its width |
| Nvic.EnableIsLocal | demo/CORE/core_cm4.h:1467-1483 | enabling or disabling one interrupt changes no other interrupt's enable bit |
| Nvic.Controller.NVIC_Init | demo/STM32F4xx_StdPeriph_Driver/src/misc.c:136-169 | for all 8-bit priorities the same state as NVIC_EncodePriority, NVIC_SetPriority and NVIC_EnableIRQ with 4 bits, or NVIC_DisableIRQ; the priority byte as a formula in the group |
| Nvic.GroupShift | demo/STM32F4xx_StdPeriph_Driver/src/misc.c:149-151 | the shift counts of NVIC_Init are in range if and only if PRIGROUP is at least 3 |
| Nvic.Controller.NVIC_PriorityGroupConfig | demo/STM32F4xx_StdPeriph_Driver/src/misc.c:118-125 | PRIGROUP reads back as the requested group, which is at least 3; the key is written and every other AIRCR bit becomes 0 |
| Nvic.Controller.NVIC_SetPriorityGrouping | demo/CORE/core_cm4.h:1435-1446 | PRIGROUP becomes the argument modulo 8, the key is written, the other bits stay |
| Nvic.Controller.NVIC_GetPriorityGrouping | demo/CORE/core_cm4.h:1455-1458 | returns PRIGROUP |
| Nvic.Controller.NVIC_EnableIRQ | demo/CORE/core_cm4.h:1467-1471 | sets one enable bit |
| Nvic.Controller.NVIC_DisableIRQ | demo/CORE/core_cm4.h:1480-1483 | clears one enable bit |
| Nvic.Controller.NVIC_SetPriority | demo/CORE/core_cm4.h:1550-1556 | the priority byte of a device interrupt or a system handler holds the code in its upper four bits |
| Nvic.PriorityIsLocal | demo/CORE/core_cm4.h:1550-1577 | the 4-bit code written is the code read back, and no other interrupt's or handler's code changes |
| Nvic.Controller.NVIC_GetPriority | demo/CORE/core_cm4.h:1570-1577 | reads the code of a device interrupt or a system handler back |
| DatahubTimer.Timer.InitTimer | project_template/timer/FreeRTOS/DatahubTimer.c:4-7 | end is 0 |
| DatahubTimer.Timer.expired | project_template/timer/FreeRTOS/DatahubTimer.c:10-19 | whether the signed wrapped difference is at most 0 |
| DatahubTimer.Timer.countdown_ms | project_template/timer/FreeRTOS/DatahubTimer.c:22-36 | end is now plus the tick count, modulo 2^32 |
| DatahubTimer.Timer.countdown | project_template/timer/FreeRTOS/DatahubTimer.c:39-42 | the same with seconds, the conversion wrapped |
| DatahubTimer.Timer.left_ms | project_template/timer/FreeRTOS/DatahubTimer.c:45-54 | the wrapped product as the C expression converts it |
| DatahubTimer.ExpiryIsExact | project_template/timer/FreeRTOS/DatahubTimer.c:10-36 | over unbounded real time, across any wraps, expired is true if and only if the deadline has passed, from arming until 2^31 ticks after the deadline, for every time-out |
| DatahubTimer.ExpiryForever | project_template/timer/FreeRTOS/DatahubTimer.c:10-19 | the answer at every later real time |
| DatahubTimer.ExpiryWindowIsTight | project_template/timer/FreeRTOS/DatahubTimer.c:17-18 | one tick after that window the timer looks unexpired |
| DatahubTimer.CountIsExact | project_template/timer/FreeRTOS/DatahubTimer.c:22-31 | the tick count is the request rounded down, at least 1, if and only if the product fits 32 bits |
| DatahubTimer.SecondsAreExact | project_template/timer/FreeRTOS/DatahubTimer.c:39-42 | countdown grants exactly s seconds if and only if the products fit 32 bits |
| DatahubTimer.LeftIsExact | project_template/timer/FreeRTOS/DatahubTimer.c:45-54 | left_ms equals the remaining ticks times the truncated 1000/HZ if and only if that fits an int, and is less otherwise |
| DatahubTimer.MillisecondsAreExact | project_template/timer/FreeRTOS/DatahubTimer.c:44-54 | left_ms is the true time left in milliseconds if and only if the product fits an int and HZ divides 1000, or no tick is left; it never promises more, and without overflow it is short by exactly the remainder of 1000/HZ per tick |
| DatahubTimer.MillisecondsCanBeShort | project_template/timer/FreeRTOS/DatahubTimer.c:53 | one second at 600 Hz is reported as 600 ms |
| DatahubTimer.LeftAboveOneKilohertz | project_template/timer/FreeRTOS/DatahubTimer.c:53 | above 1000 ticks per second left_ms is always 0 |
| DatahubTimer.LeftIsZeroExactly | project_template/timer/FreeRTOS/DatahubTimer.c:10-54 | in real time, for every tick rate, left_ms is 0 if and only if the timer has expired or HZ is above 1000 |
| DatahubTimer.LeftInRealTime | project_template/timer/FreeRTOS/DatahubTimer.c:22-54 | in real time, for every tick rate, left_ms equals the ticks to go times the truncated 1000/HZ, or 0 after the deadline, if and only if HZ is at least 2 or at most 2147483 ticks remain |
| DatahubTimer.LeftWithOneHertz | project_template/timer/FreeRTOS/DatahubTimer.c:45-54 | at one tick per second the value at every time: exact up to 2147483 ticks, 2^32 too small above |
| DatahubTimer.LeftCanBeNegative | project_template/timer/FreeRTOS/DatahubTimer.c:53 | a time-out whose time left is negative |
| Netbuf.Pool.pbuf_alloc | demo/LWIP/lwip-1.4.1/src/core/pbuf.c:306-348 | a fresh single pbuf with one reference, or NULL |
| Netbuf.Pool.pbuf_free | demo/LWIP/lwip-1.4.1/src/core/pbuf.c:617-694 | frees exactly the leading pbufs with a single owner, takes one reference from the next, returns the count modulo 256 |
| Netbuf.pbuf_cat | demo/LWIP/lwip-1.4.1/src/core/pbuf.c:744-767 | the acyclic chain of head then tail, data unchanged, the 16-bit tot_len invariant re-established; nothing if either is NULL |
| Netbuf.netbuf_new | demo/LWIP/lwip-1.4.1/src/api/netbuf.c:55-79 | a fresh empty buffer, or NULL |
| Netbuf.netbuf_delete | demo/LWIP/lwip-1.4.1/src/api/netbuf.c:86-96 | the buffer and its solely owned pbufs are released, a shared pbuf after them loses one reference, NULL accepted |
| Netbuf.netbuf_alloc | demo/LWIP/lwip-1.4.1/src/api/netbuf.c:106-123 | old chain released, reference counts included; one new fragment, its payload returned and the cursor on it, or on failure NULL, no packet and the old ptr kept |
| Netbuf.netbuf_free | demo/LWIP/lwip-1.4.1/src/api/netbuf.c:130-138 | chain released, reference counts included, no packet, no cursor |
| Netbuf.netbuf_ref | demo/LWIP/lwip-1.4.1/src/api/netbuf.c:149-165 | old chain released, reference counts included; the referenced data as the only fragment, or ERR_MEM with the cursor reset |
| Netbuf.netbuf_chain | demo/LWIP/lwip-1.4.1/src/api/netbuf.c:173-181 | head's fragments followed by tail's, cursor at the start, tail netbuf released |
| Netbuf.ChainKeepsData | demo/LWIP/lwip-1.4.1/src/api/netbuf.c:178-180 | the bytes after chaining are head's followed by tail's if and only if head holds a packet or tail holds no byte |
| Netbuf.ChainOntoEmptyLoses | demo/LWIP/lwip-1.4.1/src/api/netbuf.c:173-181 | a call on a head without a packet: the data is gone, the tail netbuf is freed, its pbuf stays allocated |
| Netbuf.AllocFailureDangles | demo/LWIP/lwip-1.4.1/src/api/netbuf.c:106-123 | a call on a buffer with a packet when memory is out: no packet, and ptr points at a freed pbuf |
| Netbuf.HistoriesThatFail | demo/LWIP/lwip-1.4.1/src/api/netbuf.c:106-181 | the same two inputs on the abstract buffer |
| Netbuf.netbuf_data | demo/LWIP/lwip-1.4.1/src/api/netbuf.c:192-205 | the current fragment; ERR_ARG if and only if the buffer or an out-pointer is NULL, ERR_BUF if and only if there is no packet |
| Netbuf.netbuf_next | demo/LWIP/lwip-1.4.1/src/api/netbuf.c:217-229 | moves to the next fragment; -1, 1, 0 say exactly whether there was one and whether more remain |
| Netbuf.netbuf_first | demo/LWIP/lwip-1.4.1/src/api/netbuf.c:238-243 | cursor to the first fragment |
| Netbuf.CursorAfterAnyHistory | demo/LWIP/lwip-1.4.1/src/api/netbuf.c:55-243 | over every operation history ptr and p are both NULL or ptr is on p's chain, if and only if the history does not end in failed netbuf_alloc calls that began on a buffer holding a packet |
| Netbuf.ReadPacket | demo/LWIP/lwip-1.4.1/src/api/netbuf.c:192-243 | first, data, next until -1 ends, visits each fragment once in order and collects the whole packet |
| Netbuf.ReadAfterChain | demo/LWIP/lwip-1.4.1/src/api/netbuf.c:173-243 | netbuf_chain followed by reading the packet gives head's data followed by tail's |

## Left out

- MQTT client and packet code: the repository has only prototypes and structures for it.
- FSMC, Ethernet, UCOS-II and the rest of lwIP: only the netbuf layer and the pbuf functions it calls are modelled.
- Startup: SystemInit and SetSysClock are a state machine instead of a method, because two wait loops need not end; the FPU and vector table writes and the external memory setup are not modelled.
- Netbuf.Pool.pbuf_alloc: covers the single-pbuf types netbuf uses; pool chains, header room and alignment are not modelled.
- Usart.Apply: the control register writers other than USART_Init, USART_OverSampling8Cmd and USART_ITConfig are functions on register values, not methods, because only their frame matters here.
- USART_DeInit, GPIO_DeInit and other peripheral resets, GPIO_PinLockConfig and bit-band enables: their effect is inside the hardware.
- RCC_I2SCLKConfig's alias write is modelled as the bit write the alias stands for.
- Oscillator timing and voltages: only the values of ready flags are modelled.
- Netbuf.netbuf_new: does not model the address, port and checksum fields it clears, because no operation here reads them.
